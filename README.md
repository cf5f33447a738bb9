# ARQ benchmark core in Dafny

This project models the sequential core of an ARQ (Automatic Repeat reQuest)
benchmark and proves properties of that model. The benchmark sends data
packets from a transmitter to a receiver over UDP and acknowledges them with
one of several ARQ protocols. The repository holds two C++ trees, `src/` (the
current one) and `arq-benchmark/` (an older snapshot), and one Python script
that pulls timings out of the logs. The model covers:

- the wire codec: the 16-bit sequence number (SN) in network byte order, the
  ACK control packet, the 5-byte data-packet header and the data packet's
  length handling, where a zero length marks End-of-Tx (current tree);
- the transmitter's buffers: the input buffer that numbers packets, and the
  retransmission (RT) buffers: Stop-and-Wait in three versions (current,
  older with an adaptive timeout, older with a fixed timeout), the plain
  older `RetransmissionBuffer`, and the circular window shared by
  Go-Back-N and Selective-Repeat;
- the receiver's buffers: the resequencing (RS) buffers for
  Stop-and-Wait (both trees), Go-Back-N, Selective-Repeat, dummy SCTP and
  dummy TCP (byte-stream reassembly), and the older output buffer;
- support code: the thread-safe FIFO queue as a plain queue, the
  conversation-id allocator, the logger's level handling and help text, the
  launcher's protocol-name parsing, window-size default and End-of-Tx packet;
- the log extraction of `test_scripts/graph.py`.

Every operation that changes state in the source is a method of a Dafny
class with the source's fields; each is specified against functions on
values (`Packet`, `Header`, `Reassembly`, ...) whose properties are proved
as lemmas. Queues are `SafeQueue` objects whose `contents` is a sequence;
where a buffer's history matters a ghost `accepted` or `history` sequence
records every packet ever queued, and the class invariant `Valid()` ties the
queue, the history and the SN counters together. Sequence numbers are
16-bit and wrap (`Inc16`); times are integers passed in as `now`.

Each module lives in a file of its own: `basics.dfy` (shared types,
`ArqBasics`), `seq_num_codec.dfy`, `control_packet.dfy`, `data_packet.dfy`,
`legacy_data_packet.dfy`, `safe_queue.dfy`, `buffer_objects.dfy`,
`input_buffer.dfy`, `output_buffer.dfy`, `conversation_id.dfy`,
`stop_and_wait_rt.dfy`, `circular_rt.dfy`, `adaptive_stop_and_wait_rt.dfy`,
`fixed_stop_and_wait_rt.dfy`, `plain_retransmission.dfy`,
`in_order_runs.dfy` (facts shared by the RS buffers), `stop_and_wait_rs.dfy`,
`go_back_n_rs.dfy`, `selective_repeat_rs.dfy`, `dummy_sctp_rs.dfy`,
`legacy_stop_and_wait_rs.dfy`, `dummy_tcp_rs.dfy`, `logging.dfy`,
`launcher.dfy`, `log_parsing.dfy`.

## Model

| member | source | states |
|---|---|---|
| ArqBasics.U16RoundTrip | arq-benchmark/arq/sequence_number.cpp:13-28 | reading back the two big-endian bytes of any 16-bit value gives the value |
| ArqBasics.EncodeDecodeU16 | arq-benchmark/arq/sequence_number.cpp:13-28 | any two bytes are the big-endian encoding of the value they decode to |
| ArqBasics.U16Injective | arq-benchmark/arq/sequence_number.cpp:27-28 | two byte pairs decoding to the same value are equal |
| ArqBasics.Resized | src/arq/common/data_packet.cpp:139 | `std::vector::resize`: the new length; a prefix when shrinking; the old bytes then zeros when growing |
| SeqNumCodec.ReadSeqNum | arq-benchmark/arq/sequence_number.cpp:19-31 | no SN iff fewer than 2 bytes; otherwise byte 0 * 256 + byte 1, later bytes ignored |
| SeqNumCodec.ReadWrittenSeqNum | arq-benchmark/arq/sequence_number.cpp:6-31 | round trip: the serialised SN, followed by anything, reads back as that SN |
| SeqNumCodec.WrittenReadSeqNum | arq-benchmark/arq/sequence_number.cpp:6-31 | converse: the first two bytes of any long-enough buffer are the encoding of the SN read from them |
| SeqNumCodec.SerialiseSeqNum | arq-benchmark/arq/sequence_number.cpp:6-17 | succeeds iff at least 2 bytes are available; on failure no byte changes; on success the SN is written big-endian at the position and no other byte changes |
| SeqNumCodec.DeserialiseSeqNum | arq-benchmark/arq/sequence_number.cpp:19-31 | succeeds iff at least 2 bytes; on failure the SN is unchanged; on success it is the SN read from the bytes |
| SeqNumCodec.SeqNumRoundTrip | src/arq/tests/control_packet_test.cpp:23-44 | for every one of the 65536 SNs, serialising and then deserialising over a changed value restores the SN |
| ControlPackets.ControlPacket.constructor | src/arq/common/control_packet.hpp:10-12 | a control packet holds the SN it acknowledges |
| ControlPackets.ControlPacket.Serialise | src/arq/common/control_packet.cpp:3-6 | exactly `serialiseSeqNum` of the acknowledged SN at the front of the buffer |
| ControlPackets.ControlPacket.Deserialise | src/arq/common/control_packet.cpp:8-11 | exactly `deserialiseSeqNum` into the acknowledged SN; a failed call leaves it unchanged |
| ControlPackets.ControlPacketRoundTrip | src/arq/tests/control_packet_test.cpp:11-44 | a 1-byte buffer fails both ways; serialise then deserialise restores the SN even after it was changed in between |
| DataPackets.HeaderBytes | src/arq/common/data_packet.cpp:16-36 | the header's wire form: 5 bytes, id, then SN and length big-endian |
| DataPackets.ParseHeader | src/arq/common/data_packet.cpp:40-72 | no header iff fewer than 5 bytes |
| DataPackets.ParseHeaderBytes | src/arq/common/data_packet.cpp:8-72 | round trip: every header, followed by anything, parses back to itself |
| DataPackets.HeaderBytesParse | src/arq/common/data_packet.cpp:8-72 | converse: the first 5 bytes of a long-enough buffer are the serialised form of the header parsed from them |
| DataPackets.SerialiseHeader | src/arq/common/data_packet.cpp:8-38 | succeeds iff 5 bytes are available; on failure no byte changes; on success exactly the 5 header bytes at the position are written |
| DataPackets.DeserialiseHeader | src/arq/common/data_packet.cpp:40-72 | succeeds iff 5 bytes; on failure the fields are unchanged; on success they are the parsed header |
| DataPackets.HeaderFromData | src/arq/common/data_packet.cpp:179-182 | in a well-formed packet the header is recovered from the bytes alone |
| DataPackets.ClampedLength | src/arq/common/data_packet.cpp:131-137 | the stored length is the requested one up to 1495, and 1495 above it |
| DataPackets.SetDataLength | src/arq/common/data_packet.cpp:129-142 | updateDataLength: only the length field changes, clamped to 1495; the vector is resized to 5 + length with old payload bytes kept and zeros added; the header is re-serialised |
| DataPackets.SetHeader | src/arq/common/data_packet.cpp:104-108 | updateHeader: the new header with its length clamped, applied as above |
| DataPackets.SetSequenceNumber | src/arq/common/data_packet.cpp:110-115 | updateSequenceNumber: only the SN field and its two wire bytes change |
| DataPackets.SetConversationId | src/arq/common/data_packet.cpp:117-122 | updateConversationID: only the id field and its wire byte change |
| DataPackets.EndOfTxOnWire | src/arq/common/data_packet.cpp:124-127 | a packet is End-of-Tx iff both length bytes on the wire are zero |
| DataPackets.ZeroLengthIsEndOfTx | src/arq/common/data_packet.cpp:74-77 | setting the length to 0 always gives a bare 5-byte End-of-Tx packet |
| DataPackets.SetDataLengthIdempotent | src/arq/common/data_packet.cpp:129-142 | applying the same length twice changes nothing more |
| DataPackets.SequenceNumberOnWire | src/arq/common/data_packet.cpp:110-115 | after updateSequenceNumber the header read back from the bytes carries the new SN and the old id and length |
| DataPackets.DataPacket.constructor | src/arq/common/data_packet.cpp:74-77 | the default packet: zero header, a 5-byte End-of-Tx packet |
| DataPackets.DataPacket.FromHeader | src/arq/common/data_packet.cpp:79-82 | the header with its length clamped, then that many zero payload bytes |
| DataPackets.DataPacket.FromSerialData | src/arq/common/data_packet.cpp:84-97 | the bytes are kept verbatim and the header is parsed from their first five; the DataPacketException for fewer than 5 bytes is what the size check at data_packet.cpp:42 intends, not what the code reaches (see Left out) |
| DataPackets.DataPacket.SerialiseHeaderInPlace | src/arq/common/data_packet.cpp:174-177 | the header fields are written over the first five bytes and nothing else changes |
| DataPackets.DataPacket.UpdateHeader | src/arq/common/data_packet.cpp:104-108 | the packet becomes `SetHeader` of its old value |
| DataPackets.DataPacket.UpdateSequenceNumber | src/arq/common/data_packet.cpp:110-115 | the packet becomes `SetSequenceNumber` of its old value |
| DataPackets.DataPacket.UpdateConversationId | src/arq/common/data_packet.cpp:117-122 | the packet becomes `SetConversationId` of its old value |
| DataPackets.DataPacket.UpdateDataLength | src/arq/common/data_packet.cpp:129-142 | the packet becomes `SetDataLength` of its old value |
| DataPackets.DataPacket.IsEndOfTxPacket | src/arq/common/data_packet.cpp:124-127 | true iff the header length is 0 |
| LegacyDataPackets.SerialiseLegacyHeader | arq-benchmark/arq/data_packet.cpp:8-38 | fails without writing on fewer than 5 bytes; otherwise writes exactly the 5 header bytes, SN and length big-endian |
| LegacyDataPackets.DeserialiseLegacyHeader | arq-benchmark/arq/data_packet.cpp:40-72 | fails with fields unchanged on fewer than 5 bytes; otherwise the parsed header, SN and length big-endian |
| LegacyDataPackets.DeserialiseHeaderAsWritten | arq-benchmark/arq/data_packet.hpp:52-84 | the inline deserialise as written: the id is read, but SN and length come from an uninitialised temporary, which is copied over bytes 1-4 of the buffer |
| LegacyDataPackets.HeaderTestAsWritten | arq-benchmark/arq/data_packet.hpp:71-77 | against the inline deserialise, for any header and any bytes in `temp`, the id survives and the SN and length come back equal, so every header whose SN differs from its length (the test's {0x4F, 0xE810, 0x12} among them) fails the round trip |
| LegacyDataPackets.HeaderTest | arq-benchmark/arq/tests/data_packet_test.cpp:9-38 | the header test against data_packet.cpp: a 4-byte buffer fails, 5 bytes succeed, the header round-trips |
| LegacyDataPackets.LegacyClampedLength | arq-benchmark/arq/data_packet.cpp:109-115 | the stored length is the requested one up to `DATA_PKT_MAX_SIZE`, and that bound above it |
| LegacyDataPackets.LegacySetDataLength | arq-benchmark/arq/data_packet.cpp:107-120 | setDataLength: length clamped, vector resized to header + length with old payload kept and zeros added, header re-serialised |
| LegacyDataPackets.LegacySetHeader | arq-benchmark/arq/data_packet.cpp:100-104 | setHeader: id and SN copied, the stored length is `LegacyClampedLength` of the header's, and the payload is the old one truncated or zero-extended to it |
| LegacyDataPackets.LegacyAgreesWithCurrent | arq-benchmark/arq/data_packet.cpp:107-120 | with the bound 1495 the older setDataLength is the current updateDataLength |
| LegacyDataPackets.LegacyDataPacket.FromHeader | arq-benchmark/arq/data_packet.cpp:74-77 | the packet is `LegacySetHeader` of an empty packet |
| LegacyDataPackets.LegacyDataPacket.FromSerialData | arq-benchmark/arq/data_packet.cpp:79-93 | the bytes are kept verbatim and the header is parsed from their first five; the DataPacketException for fewer than 5 bytes is what the size check at data_packet.cpp:42 intends, not what the code reaches (see Left out) |
| LegacyDataPackets.LegacyDataPacket.SetHeader | arq-benchmark/arq/data_packet.cpp:100-104 | the packet becomes `LegacySetHeader` of its old value |
| LegacyDataPackets.LegacyDataPacket.SetDataLength | arq-benchmark/arq/data_packet.cpp:107-120 | the packet becomes `LegacySetDataLength` of its old value |
| SafeQueues.SafeQueue.constructor | src/util/safe_queue.hpp:64 | a new queue is empty |
| SafeQueues.SafeQueue.Push | src/util/safe_queue.hpp:15-20 | the value is appended at the back |
| SafeQueues.SafeQueue.PopWait | src/util/safe_queue.hpp:24-33 | on a non-empty queue (the wait), returns and removes exactly the front |
| SafeQueues.SafeQueue.TryPop | src/util/safe_queue.hpp:37-48 | empty: None and no change; otherwise returns and removes exactly the front |
| SafeQueues.SafeQueue.Empty | src/util/safe_queue.hpp:50-54 | true iff the size is 0 |
| SafeQueues.SafeQueue.Size | src/util/safe_queue.hpp:56-60 | the number of queued elements |
| SafeQueues.PushThenPop | src/util/tests/safe_queue_test.cpp:103-114 | FIFO: elements pushed in turn are popped in the same order, and the queue is empty afterwards |
| BufferObjects.UpdateLastTxTime | src/arq/common/tx_buffer_object.hpp:26 | only the last transmission time changes, to `now` |
| InputBuffers.InputBuffer.constructor | src/arq/common/input_buffer.hpp:16 | an empty buffer whose counter is the given value |
| InputBuffers.InputBuffer.Legacy | arq-benchmark/arq/input_buffer.hpp:41 | the older tree's buffer: the counter starts at 0 |
| InputBuffers.InputBuffer.GetNextInfo | src/arq/common/input_buffer.cpp:27-32 | the counter is pre-incremented (wrapping) and returned as the SN, with first and last transmission time both `now` |
| InputBuffers.InputBuffer.AddPacket | src/arq/common/input_buffer.cpp:5-15 | the packet's header SN is set to the next SN and the object is queued at the back; the invariant keeps queued SNs consecutive and equal to the header SNs |
| InputBuffers.InputBuffer.GetPacket | src/arq/common/input_buffer.cpp:17-20 | on a non-empty buffer returns and removes the oldest object |
| InputBuffers.InputBuffer.TryGetPacket | src/arq/common/input_buffer.cpp:22-25 | None when empty, otherwise the oldest object, removed |
| InputBuffers.QueuedSnsConsecutive | src/arq/common/input_buffer.cpp:5-32 | neighbouring queued objects carry consecutive SNs (wrapping), and each header SN equals its assigned SN |
| InputBuffers.LegacyFirstSequenceNumber | arq-benchmark/arq/input_buffer.cpp:27-32 | in the older tree the first packet gets SN 1, `firstSequenceNumber` |
| OutputBuffers.OutputBuffer.constructor | arq-benchmark/arq/output_buffer.hpp:26 | empty, expecting SN 1 |
| OutputBuffers.OutputBuffer.AddPacket | arq-benchmark/arq/output_buffer.cpp:5-26 | accepted iff the SN is the expected one: then next advances (wrapping) and the packet is queued with its receive time; otherwise false and nothing changes |
| OutputBuffers.OutputBuffer.GetPacket | arq-benchmark/arq/output_buffer.cpp:28-31 | on a non-empty buffer returns and removes the oldest accepted packet |
| OutputBuffers.OutputBuffer.TryGetPacket | arq-benchmark/arq/output_buffer.cpp:33-36 | None when empty, otherwise the oldest accepted packet, removed |
| OutputBuffers.DeliveredSnsConsecutive | arq-benchmark/arq/output_buffer.cpp:7-25 | neighbouring queued packets carry consecutive SNs |
| OutputBuffers.FirstPacketAccepted | arq-benchmark/arq/input_buffer.hpp:41 | the first packet numbered by a fresh older input buffer is accepted by a fresh output buffer, and a second copy of it is rejected |
| ConversationIds.Steps | arq-benchmark/arq/conversation_id.cpp:9 | the number of 8-bit increments (1 to 256) from one id to another |
| ConversationIds.AllocatedBound | arq-benchmark/arq/conversation_id.cpp:5-10 | at most 256 ids exist, and fewer than 256 allocated leaves one free, so the scan ends |
| ConversationIds.ConversationIdAllocator.constructor | arq-benchmark/arq/conversation_id.hpp:31-32 | nothing allocated, last allocated 0 |
| ConversationIds.ConversationIdAllocator.GetNewId | arq-benchmark/arq/conversation_id.cpp:3-13 | all 256 allocated: ConversationIDError and no change; otherwise the first free id after the last one allocated, scanning upward mod 256; it was free and is now allocated, and nothing else changes |
| ConversationIds.ConversationIdAllocator.RegisterId | arq-benchmark/arq/conversation_id.cpp:15-18 | true iff the id was newly inserted; it is allocated afterwards |
| ConversationIds.ConversationIdAllocator.ReleaseId | arq-benchmark/arq/conversation_id.cpp:20-23 | true iff the id was allocated; it is not afterwards |
| ConversationIds.AllocationOrder | arq-benchmark/arq/conversation_id.cpp:3-23 | a fresh allocator hands out 1, then 2; after 1 is released and 3 registered, the upward scan gives 4, not the released 1 |
| StopAndWaitRt.StopAndWait.constructor | src/arq/retransmission_buffers/stop_and_wait_rt.cpp:5 | an empty slot and the given timeout |
| StopAndWaitRt.StopAndWait.AddPacket | src/arq/retransmission_buffers/stop_and_wait_rt.cpp:7-13 | a held packet makes the call throw ArqProtocolException and keeps the old packet; otherwise the packet is held |
| StopAndWaitRt.StopAndWait.TryGetPacketSpan | src/arq/retransmission_buffers/stop_and_wait_rt.cpp:15-24 | the held packet's bytes iff one is held and has timed out, and then its last transmission time becomes `now`; otherwise None and no change |
| StopAndWaitRt.StopAndWait.AcknowledgePacket | src/arq/retransmission_buffers/stop_and_wait_rt.cpp:36-51 | an ACK for the held SN empties the slot; another SN, or an empty slot, changes nothing |
| StopAndWaitRt.ReadyIffNotPending | src/arq/retransmission_buffers/stop_and_wait_rt.cpp:26-34 | ready for a new packet iff nothing is pending |
| StopAndWaitRt.AcknowledgeScenario | src/arq/retransmission_buffers/tests/stop_and_wait_rt_test.cpp:28-116 | a second add is refused, a wrong ACK keeps the packet, the right ACK empties the buffer, a repeated ACK is harmless |
| CircularRt.Window | src/arq/retransmission_buffers/go_back_n_rt.cpp:84 | the slots in window order: position k is slot (start + k) mod window |
| CircularRt.WindowRotate | src/arq/retransmission_buffers/go_back_n_rt.cpp:94-97 | moving the start on by d slots rotates the window order by d |
| CircularRt.SlidePrefix | src/arq/retransmission_buffers/go_back_n_rt.cpp:82-97 | after a cumulative ACK slides the window, the occupied slots are still exactly a prefix of the window, shortened by the number cleared |
| CircularRt.SlideCleared | src/arq/retransmission_buffers/go_back_n_rt.cpp:82-97 | clearing the first d window positions and then moving the start on by d gives the old window without its first d positions, followed by d empty ones |
| CircularRt.FirstDue | src/arq/retransmission_buffers/go_back_n_rt.cpp:39-51 | the first window position holding a timed-out packet, and none before it; None iff there is none |
| CircularRt.WindowBuffer.GoBackN | src/arq/retransmission_buffers/go_back_n_rt.cpp:4-14 | windowSize empty slots, start 0, count 0, next to ACK the first SN |
| CircularRt.WindowBuffer.SelectiveRepeat | src/arq/retransmission_buffers/selective_repeat_rt.cpp:7-17 | the same initial state |
| CircularRt.WindowBuffer.AddPacket | src/arq/retransmission_buffers/go_back_n_rt.cpp:17-30 | the packet goes into the first empty slot of the window, which is position `count`, and is counted; a full window throws ArqProtocolException and nothing changes; the invariant that the count is the number of occupied slots, all at the front of the window, is kept |
| CircularRt.WindowBuffer.TryGetPacketSpan | src/arq/retransmission_buffers/go_back_n_rt.cpp:32-52 | nothing pending: None; otherwise the bytes of the first timed-out packet in window order, with only that slot's last transmission time updated; None and no change when none has timed out |
| CircularRt.WindowBuffer.AcknowledgePacket | src/arq/retransmission_buffers/go_back_n_rt.cpp:66-98 | an ACK at or beyond next + window, one with nothing pending, or a stale one below next changes nothing; otherwise the d = acked + 1 - next front positions are cleared, the window slides on by d, the count drops by the occupied ones among them and next becomes acked + 1 (corrected; see Findings) |
| CircularRt.ReadyOrPending | src/arq/retransmission_buffers/go_back_n_rt.cpp:55-63 | a valid window is ready for a new packet or has packets pending |
| CircularRt.AddKeepsOrder | src/arq/retransmission_buffers/go_back_n_rt.cpp:17-27 | adding the packet numbered next + count keeps position k holding SN next + k |
| CircularRt.AckKeepsOrder | src/arq/retransmission_buffers/go_back_n_rt.cpp:82-97 | a cumulative ACK keeps position k holding SN next + k, with the new next |
| CircularRt.RemovePacketsScenario | src/arq/retransmission_buffers/tests/go_back_n_rt_test.cpp:61-92 | for any window size and first SN: ACKs on an empty buffer leave it empty, a full window refuses one more packet, in-order ACKs drain it |
| CircularRt.ClearAsWritten | src/arq/retransmission_buffers/go_back_n_rt.cpp:83-91 | the clearing loop as written keeps the window's size, start and next |
| CircularRt.AcknowledgeAsWritten | src/arq/retransmission_buffers/go_back_n_rt.cpp:66-98 | do_acknowledgePacket as written: the start index never decreases and is not reduced modulo the window |
| CircularRt.StartIndexEscapes | src/arq/retransmission_buffers/go_back_n_rt.cpp:95 | as written, a window of 2 acknowledged twice leaves the start index at 2, outside the vector |
| CircularRt.CountGoesNegative | src/arq/retransmission_buffers/go_back_n_rt.cpp:87-90 | as written, a window of 3 holding one packet and ACKed two past it drops the count to -2 |
| AdaptiveStopAndWaitRt.NewTimeoutBounds | arq-benchmark/arq/retransmission_buffers/stop_and_wait_rt.cpp:62-63 | the new timeout is at most 100 ms, and for non-negative inputs it lies between the round trip and the old timeout unless capped |
| AdaptiveStopAndWaitRt.NewTimeoutStaysInRange | arq-benchmark/arq/retransmission_buffers/stop_and_wait_rt.cpp:62-69 | a timeout in [0, 100 ms] stays there after any update |
| AdaptiveStopAndWaitRt.Halved | arq-benchmark/arq/retransmission_buffers/stop_and_wait_rt.cpp:63 | halving a duration rounds toward zero |
| AdaptiveStopAndWaitRt.StopAndWait.constructor | arq-benchmark/arq/retransmission_buffers/stop_and_wait_rt.cpp:5-8 | an empty slot with the given timeout and adaptive flag |
| AdaptiveStopAndWaitRt.StopAndWait.AddPacket | arq-benchmark/arq/retransmission_buffers/stop_and_wait_rt.cpp:10-14 | the slot is overwritten, held packet or not |
| AdaptiveStopAndWaitRt.StopAndWait.GetPacketData | arq-benchmark/arq/retransmission_buffers/stop_and_wait_rt.cpp:16-26 | with the timeout test of lines 81-91: the bytes iff a packet is held and strictly more than the timeout has passed since its last transmission, which then becomes `now`; otherwise None and no change |
| AdaptiveStopAndWaitRt.StopAndWait.AcknowledgePacket | arq-benchmark/arq/retransmission_buffers/stop_and_wait_rt.cpp:40-79 | empty slot or another SN: no change; the held SN empties the slot and, when adaptive, sets the timeout to min((now - first transmission + old timeout) / 2, 100 ms) |
| AdaptiveStopAndWaitRt.AdaptiveScenario | arq-benchmark/arq/retransmission_buffers/stop_and_wait_rt.cpp:40-91 | not due at 10 ms, due at 60 ms, and an ACK at 70 ms sets a 50 ms timeout to 60 ms |
| FixedStopAndWaitRt.StopAndWaitRtBuffer.constructor | arq-benchmark/arq/rt_buffers/stop_and_wait.cpp:5-9 | an empty slot and a fixed 1000 ms timeout |
| FixedStopAndWaitRt.StopAndWaitRtBuffer.AddPacket | arq-benchmark/arq/rt_buffers/stop_and_wait.cpp:11-13 | the slot is overwritten |
| FixedStopAndWaitRt.StopAndWaitRtBuffer.GetPacketData | arq-benchmark/arq/rt_buffers/stop_and_wait.cpp:15-24 | with the timeout test of lines 43-51: the bytes iff a packet is held and strictly more than 1000 ms have passed since it was sent, which then becomes `now` |
| FixedStopAndWaitRt.StopAndWaitRtBuffer.AcknowledgePacket | arq-benchmark/arq/rt_buffers/stop_and_wait.cpp:34-41 | an empty slot is `bad_optional_access`; the held SN empties the slot; another SN keeps it |
| FixedStopAndWaitRt.EarlyAckScenario | arq-benchmark/arq/rt_buffers/stop_and_wait.cpp:34-41 | an ACK before any add is an error; after an add the matching ACK empties the slot |
| FixedStopAndWaitRt.TimeoutIsStrict | arq-benchmark/arq/rt_buffers/stop_and_wait.cpp:48 | not due exactly 1000 ms after sending, due one microsecond later |
| PlainRetransmission.RetransmissionBuffer.constructor | arq-benchmark/arq/retransmission_buffer.hpp:19 | `packetAcked` starts false |
| PlainRetransmission.RetransmissionBuffer.AddPacket | arq-benchmark/arq/retransmission_buffer.cpp:5-8 | as written: the packet is replaced and the flag kept |
| PlainRetransmission.RetransmissionBuffer.AddPacketResetting | arq-benchmark/arq/retransmission_buffer.cpp:5-8 | corrected: the packet is replaced and is unacknowledged |
| PlainRetransmission.RetransmissionBuffer.GetRetransmitPacketData | arq-benchmark/arq/retransmission_buffer.cpp:10-18 | the stored bytes iff not acknowledged |
| PlainRetransmission.RetransmissionBuffer.AcknowledgePacket | arq-benchmark/arq/retransmission_buffer.cpp:20-28 | the stored SN sets the flag; another SN leaves it |
| PlainRetransmission.RetransmissionBuffer.PacketsPending | arq-benchmark/arq/retransmission_buffer.cpp:30-33 | pending iff data is offered for retransmission |
| PlainRetransmission.NeverPendingAgain | arq-benchmark/arq/retransmission_buffer.cpp:5-8 | as written (the flag being set at line 23), after one ACK a newly added packet is never pending nor offered |
| PlainRetransmission.PendingAgain | arq-benchmark/arq/retransmission_buffer.cpp:5-8 | corrected, the next packet is pending and offered until its own ACK |
| InOrderRuns.RunAccept | src/arq/resequencing_buffers/go_back_n_rs.cpp:12-21 | accepting the packet carrying the expected SN extends the run of accepted packets, with the expected SN advanced modulo 2^16 |
| InOrderRuns.SuffixPop | src/arq/resequencing_buffers/go_back_n_rs.cpp:34-37 | taking the oldest queued packet keeps the queue a suffix of the accepted packets |
| InOrderRuns.SuffixPush | src/arq/resequencing_buffers/go_back_n_rs.cpp:18 | queuing an accepted packet keeps the queue a suffix of the accepted packets |
| InOrderRuns.Inc16Injective | src/arq/resequencing_buffers/stop_and_wait_rs.cpp:52 | the 16-bit increment is injective |
| InOrderRuns.Prev16 | src/arq/resequencing_buffers/selective_repeat_rs.cpp:23 | `next - 1` in 16 bits is the SN whose increment is `next` |
| InOrderRuns.LastAcceptedSn | src/arq/resequencing_buffers/selective_repeat_rs.cpp:23 | the newest accepted packet carries `next - 1` |
| InOrderRuns.QueuedConsecutive | src/arq/resequencing_buffers/go_back_n_rs.cpp:12-21 | neighbouring queued packets carry consecutive SNs, so the output buffer receives them in order |
| InOrderRuns.TestPacket | src/arq/resequencing_buffers/tests/rs_tests_common.hpp:16-21 | the tests' packet for an SN is well formed, carries that SN and has no payload |
| StopAndWaitRs.PrevIsBefore | src/arq/resequencing_buffers/stop_and_wait_rs.cpp:26-32 | the SN just before the expected one comes before it in serial-number order, including across the wrap |
| StopAndWaitRs.BeforeAgreesAwayFromWrap | src/arq/resequencing_buffers/stop_and_wait_rs.cpp:26 | away from the wrap, serial-number order agrees with the plain `<` the code uses |
| StopAndWaitRs.StopAndWait.constructor | src/arq/resequencing_buffers/stop_and_wait_rs.cpp:5-8 | an empty slot expecting the first SN |
| StopAndWaitRs.StopAndWait.AddPacket | src/arq/resequencing_buffers/stop_and_wait_rs.cpp:11-39 | as written: a full slot refuses without ACK; the expected SN is held and ACKed; a smaller SN is re-ACKed; a larger one is dropped unACKed; the expected SN never changes here |
| StopAndWaitRs.StopAndWait.AddPacketSerial | src/arq/resequencing_buffers/stop_and_wait_rs.cpp:11-39 | corrected: as above, with "smaller" read in serial-number order, so an SN just before a wrapped expected SN is re-ACKed |
| StopAndWaitRs.StopAndWait.GetNextPacket | src/arq/resequencing_buffers/stop_and_wait_rs.cpp:47-56 | hands on the held packet and empties the slot; only then does the expected SN advance, modulo 2^16; the delivered packets are exactly the held ones, in order |
| StopAndWaitRs.AddPacketsScenario | src/arq/resequencing_buffers/tests/stop_and_wait_rs_test.cpp:13-39 | the expected packet is ACKed and pending; a second packet is refused while the slot is full |
| StopAndWaitRs.RemovePacketsScenario | src/arq/resequencing_buffers/tests/stop_and_wait_rs_test.cpp:41-92 | packets come out in SN order, the buffer is then empty, and an SN far ahead is not ACKed |
| StopAndWaitRs.LostAckAfterWrapAsWritten | src/arq/resequencing_buffers/stop_and_wait_rs.cpp:26 | as written, after 65535 is delivered (the expected SN wraps to 0) a retransmitted 65535 is not re-ACKed |
| StopAndWaitRs.LostAckIsReAcked | src/arq/resequencing_buffers/stop_and_wait_rs.cpp:26-32 | corrected, a retransmission of the last delivered packet is re-ACKed for every first SN |
| GoBackNRs.GoBackN.constructor | src/arq/resequencing_buffers/go_back_n_rs.cpp:5 | an empty queue expecting the first SN, no End-of-Tx seen, ACKs disabled |
| GoBackNRs.GoBackN.AddPacket | src/arq/resequencing_buffers/go_back_n_rs.cpp:7-27 | as written: an ACK iff the SN is the expected one; then the packet is queued, next advances modulo 2^16 and End-of-Tx is latched; otherwise nothing changes |
| GoBackNRs.GoBackN.AddPacketReAcking | src/arq/resequencing_buffers/go_back_n_rs.hpp:27-29 | corrected: as above, and a rejected packet is answered with the SN of the newest accepted packet once one has been accepted |
| GoBackNRs.GoBackN.PacketsPending | src/arq/resequencing_buffers/go_back_n_rs.cpp:29-32 | pending iff the queue is non-empty |
| GoBackNRs.GoBackN.GetNextPacket | src/arq/resequencing_buffers/go_back_n_rs.cpp:34-37 | the oldest queued packet, which is removed |
| GoBackNRs.InOrderScenario | src/arq/resequencing_buffers/tests/rs_tests_common.hpp:26-46 | for any first SN and count, n in-order packets are each ACKed with their own SN and come out in that order, leaving nothing pending |
| GoBackNRs.OutOfOrderAsWritten | src/arq/resequencing_buffers/tests/rs_tests_common.hpp:67-74 | as written, a duplicate of the accepted packet gets no ACK, where the test expects the last in-order SN |
| GoBackNRs.OutOfOrder | src/arq/resequencing_buffers/tests/rs_tests_common.hpp:67-104 | corrected, duplicates, packets ahead and packets behind are all answered with the last in-order SN |
| SelectiveRepeatRs.SelectiveRepeat.constructor | src/arq/resequencing_buffers/selective_repeat_rs.cpp:5 | an empty queue expecting the first SN, ACKs disabled |
| SelectiveRepeatRs.SelectiveRepeat.AddPacket | src/arq/resequencing_buffers/selective_repeat_rs.cpp:7-25 | the expected SN is queued, ACKed, and next advances modulo 2^16; any other SN changes nothing and is answered with the newest accepted SN, or not at all before the first acceptance |
| SelectiveRepeatRs.SelectiveRepeat.PacketsPending | src/arq/resequencing_buffers/selective_repeat_rs.cpp:27-30 | pending iff the queue is non-empty |
| SelectiveRepeatRs.SelectiveRepeat.GetNextPacket | src/arq/resequencing_buffers/selective_repeat_rs.cpp:32-35 | the oldest queued packet, which is removed |
| SelectiveRepeatRs.GapScenario | src/arq/resequencing_buffers/selective_repeat_rs.cpp:7-25 | a stray packet before any acceptance is not ACKed; after p0, an early p2 is answered with p0's SN; p1 fills the gap and is ACKed; p0 comes out first |
| DummySctpRs.Trimmed | src/arq/resequencing_buffers/dummy_sctp_rs.cpp:21-23 | the queued packet is the first DATA_PKT_MAX_PAYLOAD_SIZE bytes, well formed, with the SN read from the wire |
| DummySctpRs.DummySctp.constructor | src/arq/resequencing_buffers/dummy_sctp_rs.cpp:5 | an empty queue expecting the first SN |
| DummySctpRs.DummySctp.AddPacket | src/arq/resequencing_buffers/dummy_sctp_rs.cpp:7-34 | an ACK iff the wire SN is the expected one; then the trimmed packet is queued and next advances modulo 2^16; otherwise nothing changes |
| DummySctpRs.DummySctp.PacketsPending | src/arq/resequencing_buffers/dummy_sctp_rs.cpp:36-39 | pending iff the queue is non-empty |
| DummySctpRs.DummySctp.GetNextPacket | src/arq/resequencing_buffers/dummy_sctp_rs.cpp:41-44 | the oldest queued packet, which is removed |
| DummySctpRs.PaddedPacket | src/arq/resequencing_buffers/dummy_sctp_rs.cpp:16-19 | a header padded with zeros to the MTU carries its SN on the wire and passes the padding check |
| DummySctpRs.DuplicateScenario | src/arq/resequencing_buffers/dummy_sctp_rs.cpp:24-33 | a padded packet is ACKed and queued trimmed to DATA_PKT_MAX_PAYLOAD_SIZE bytes; its duplicate is not ACKed |
| LegacyStopAndWaitRs.StopAndWait.constructor | arq-benchmark/arq/resequencing_buffers/stop_and_wait_rs.cpp:5 | an empty slot expecting the first SN, latch clear |
| LegacyStopAndWaitRs.StopAndWait.AddPacket | arq-benchmark/arq/resequencing_buffers/stop_and_wait_rs.cpp:7-44 | as written: with the latch set the slot empties and nothing is ACKed; an SN equal to expected or expected + 1 (unwrapped) is held, becomes expected and is ACKed; any other changes nothing |
| LegacyStopAndWaitRs.StopAndWait.AddPacketWrapping | arq-benchmark/arq/resequencing_buffers/stop_and_wait_rs.cpp:7-44 | corrected: as above with the 16-bit successor of expected |
| LegacyStopAndWaitRs.StopAndWait.GetNextPacket | arq-benchmark/arq/resequencing_buffers/stop_and_wait_rs.cpp:52-70 | hands on the held packet and empties the slot; the latch is set iff it was set or the packet is End-of-Tx |
| LegacyStopAndWaitRs.StallAsWritten | arq-benchmark/arq/resequencing_buffers/stop_and_wait_rs.cpp:27 | as written, after SN 65535 the packet with SN 0 is never ACKed, however often it is resent |
| LegacyStopAndWaitRs.WrapAccepted | arq-benchmark/arq/resequencing_buffers/stop_and_wait_rs.cpp:27 | corrected, SN 0 is accepted after 65535 |
| LegacyStopAndWaitRs.EndOfTxLatch | arq-benchmark/arq/resequencing_buffers/stop_and_wait_rs.cpp:17-21 | with the latch set at lines 63-65: once an End-of-Tx packet is handed on, a later packet is not ACKed and nothing is pending |
| DummyTcpRs.Unpadded | arq-benchmark/arq/resequencing_buffers/dummy_tcp_rs.cpp:20-25 | the longest prefix not ending in zero, everything after it being zero |
| DummyTcpRs.TrailingZerosStart | arq-benchmark/arq/resequencing_buffers/dummy_tcp_rs.cpp:20-24 | the loop finds the end of `Unpadded` |
| DummyTcpRs.SkipEndStops | arq-benchmark/arq/resequencing_buffers/dummy_tcp_rs.cpp:228-230 | as both scans (lines 228-230 and 260-262) use it: the first index at or after `i` whose byte is not 2, or the end |
| DummyTcpRs.ScanAsWritten | arq-benchmark/arq/resequencing_buffers/dummy_tcp_rs.cpp:228-230 | as written, the scan stops inside the vector iff some byte from its start on is not 2; otherwise it reads past the end |
| DummyTcpRs.ScanPast2s | arq-benchmark/arq/resequencing_buffers/dummy_tcp_rs.cpp:228-230 | corrected, for both scans (lines 228-230 and 260-262), the scan stops at the end of the vector at the latest, at `SkipEnd` |
| DummyTcpRs.ParsePrefix | arq-benchmark/arq/resequencing_buffers/dummy_tcp_rs.cpp:220-223 | the header of the first packet's worth of bytes is the header of the whole vector |
| DummyTcpRs.PushedBeforeTwice | arq-benchmark/arq/resequencing_buffers/dummy_tcp_rs.cpp:247-249 | pushing in two steps is pushing the concatenation |
| DummyTcpRs.ReassembleSound | arq-benchmark/arq/resequencing_buffers/dummy_tcp_rs.cpp:214-273 | processing only removes bytes from the front, leaves less than a packet on a normal end, and queues whole packets with consecutive SNs from the expected one, which ends just past them |
| DummyTcpRs.DummyTcp.constructor | arq-benchmark/arq/resequencing_buffers/dummy_tcp_rs.hpp:32 | an empty vector and queue, expecting the first SN |
| DummyTcpRs.DummyTcp.Push | arq-benchmark/arq/resequencing_buffers/dummy_tcp_rs.cpp:247-248 | the packet is queued and the expected SN advances modulo 2^16 |
| DummyTcpRs.DummyTcp.ProcessReceiveBuffer | arq-benchmark/arq/resequencing_buffers/dummy_tcp_rs.cpp:214-273 | the vector, the expected SN and the queue become what `Reassemble` gives; the count of packets queued, or the failed assertion |
| DummyTcpRs.DummyTcp.AddPacket | arq-benchmark/arq/resequencing_buffers/dummy_tcp_rs.cpp:11-38 | the unpadded bytes are appended and processed; never an ACK; a failed assertion is an error |
| DummyTcpRs.DummyTcp.PacketsPending | arq-benchmark/arq/resequencing_buffers/dummy_tcp_rs.cpp:275-278 | pending iff the queue is non-empty |
| DummyTcpRs.DummyTcp.GetNextPacket | arq-benchmark/arq/resequencing_buffers/dummy_tcp_rs.cpp:280-283 | the oldest queued packet, which is removed |
| DummyTcpRs.StreamPacket | arq-benchmark/arq/resequencing_buffers/dummy_tcp_rs.cpp:238 | a packet as the benchmark sends it: header (1, sn, length) and a payload of 2s |
| DummyTcpRs.RetransmissionOverrunsAsWritten | arq-benchmark/arq/resequencing_buffers/dummy_tcp_rs.cpp:225-230 | as written, a retransmitted packet alone in the vector takes the retransmission branch and its scan finds no end inside the vector |
| DummyTcpRs.RetransmissionDropped | arq-benchmark/arq/resequencing_buffers/dummy_tcp_rs.cpp:225-234 | corrected, that retransmission is dropped whole and nothing is queued |
| DummyTcpRs.TwoPacketsReassembled | arq-benchmark/arq/resequencing_buffers/dummy_tcp_rs.cpp:214-273 | two consecutive packets in one vector are both queued, leaving nothing |
| DummyTcpRs.TwoPacketsInOneBuffer | arq-benchmark/arq/resequencing_buffers/dummy_tcp_rs.cpp:11-38 | one zero-padded buffer carrying SNs 1 and 2 queues both and returns no ACK |
| DummyTcpRs.UnpaddedZeros | arq-benchmark/arq/resequencing_buffers/dummy_tcp_rs.cpp:20-25 | zero padding after a non-zero last byte is removed exactly |
| Logging.LabelsOfLevels | arq-benchmark/util/logging.hpp:63 | each level's label |
| Logging.Longest | arq-benchmark/util/logging.hpp:66-67 | at least every label's length, and attained by one of them |
| Logging.LongestLabelIsSeven | arq-benchmark/util/logging.hpp:66-67 | the longest label has seven characters |
| Logging.Centred | arq-benchmark/util/logging.hpp:40 | a shorter text is centred in exactly `width` characters; a longer one is kept |
| Logging.LogLine | arq-benchmark/util/logging.hpp:40 | the line starts with `[`, has the label field's fixed width, and ends with the message |
| Logging.Logger.constructor | arq-benchmark/util/logging.hpp:62 | the level starts at INFO |
| Logging.Logger.SetLoggingLevel | arq-benchmark/util/logging.hpp:24-30 | a level without label is `invalid_argument` and keeps the level; any other is set |
| Logging.Logger.LoggingLevelStr | arq-benchmark/util/logging.hpp:32 | the label of the current level |
| Logging.Logger.LogMessage | arq-benchmark/util/logging.hpp:35-42 | a line iff the current level is at least the message's |
| Logging.FilterByLevel | arq-benchmark/util/logging.hpp:37 | NONE silences every message, DEBUG passes all, and passing means the message's level is at most the current one |
| Logging.Entry | arq-benchmark/util/logging.hpp:50-52 | one help entry: the digit, " = ", the label |
| Logging.HelpPrefixWhole | arq-benchmark/util/logging.hpp:48-56 | the entries built by the loop, followed by the rest, make the whole list |
| Logging.AppendEntry | arq-benchmark/util/logging.hpp:50-55 | one turn of the loop appends an entry and, except after the last, ", " |
| Logging.HelpTextFor | arq-benchmark/util/logging.hpp:45-59 | the loop builds "set logging level (" + the entries joined by ", " + ")" |
| Logging.HelpText | arq-benchmark/util/logging.hpp:45-59 | the help text over the five labels |
| Logging.HelpTextIs | arq-benchmark/util/logging.hpp:45-59 | the help text is "set logging level (0 = NONE, 1 = ERROR, 2 = WARNING, 3 = INFO, 4 = DEBUG)" |
| Logging.SetLevelScenario | arq-benchmark/util/logging.hpp:24-32 | level 5 is refused and INFO kept; DEBUG is then set |
| Launcher.ArqProtocolToString | arq-benchmark/config.hpp:22-36 | every protocol has a non-empty name |
| Launcher.GetArqProtocolFromStr | src/launcher.cpp:116-132 | a protocol iff the input is its name; otherwise the help exception |
| Launcher.ProtocolNameRoundTrip | src/launcher.cpp:116-132 | every protocol is read back from its name, and no two share one |
| Launcher.UpperCaseRefused | src/launcher.cpp:116-132 | "GO-BACK-N" is refused |
| Launcher.WindowSizeOrDefault | src/launcher.cpp:413-416 | the configured window size, or 100 (the same default again at lines 430-433) |
| Launcher.MakeEndOfTxPacket | src/launcher.cpp:324-327 | a well-formed End-of-Tx packet with conversation id 1, SN 0 and length 0, its header alone |
| LogParsing.Find | test_scripts/graph.py:46 | the first occurrence at or after a start index, or none at all |
| LogParsing.LazyGroup | test_scripts/graph.py:46-54 | the group of `prefix(.+?)suffix`: non-empty, following the first prefix and followed by the suffix, the shortest such; none iff no prefix or no suffix after it |
| LogParsing.TailGroup | test_scripts/graph.py:46-54 | the group of `marker(.+?)$`: the non-empty rest of the line after the first marker; none iff no marker or it ends the line |
| LogParsing.LinePair | test_scripts/graph.py:22-34 | a line yields one pair iff both groups are found and the timestamp parses |
| LogParsing.PairsInFileOrder | test_scripts/graph.py:21-34 | the pairs are exactly those of the lines yielding one, in file order, no more than the lines |
| LogParsing.NoMatchesNoPairs | test_scripts/graph.py:21-34 | a file without any SN match gives no pairs |
| LogParsing.ParseLogfile | test_scripts/graph.py:7-38 | the loop collects `Pairs` of the file, at most one per line |
| LogParsing.ParseServerLogfile | test_scripts/graph.py:40-46 | the pairs under the input-buffer patterns |
| LogParsing.ParseClientLogfile | test_scripts/graph.py:48-54 | the pairs under the output-buffer patterns |
| LogParsing.ServerPairShape | test_scripts/graph.py:44-46 | a server line yielding a pair carries "Adding packet with SN <sn> to IB" and ends in " to IB at time <timestamp>" |
| LogParsing.ServerExampleSn | test_scripts/graph.py:44 | the example line gives SN "2" |

## Left out

- Sockets, the transmitter and receiver threads, mutexes and condition variables are not modelled. A wait on a condition variable becomes a precondition: a blocking `pop_wait` needs a non-empty queue, and a Stop-and-Wait slot needs to be empty before adding and full before taking.
- The clock is a parameter `now`. Durations are whole microseconds. Timeout checks that the source delegates to `isPacketTimedOut` take their outcome as a parameter.
- Printing and log output are not modelled (`util::logDebug`, `std::println`, the byte dump in the dummy TCP buffer). `Logging.LogLine` is the text that would be printed.
- The random payload of `transmitPackets` and the boost command-line parsing of the launcher are not modelled. So are the thread orchestration of `startTransmitter` and `startReceiver`. Only the protocol name, the window default and the End-of-Tx packet are modelled.
- `src/config.hpp` is not part of this model. The protocol names are those of `arq-benchmark/config.hpp`, whose enumeration and switch are the same.
- The constants `packet_payload_length`, `packet_length` and the first counter value of the current tree's input buffer are constructor parameters, because their definitions are not part of this model.
- The dummy retransmission buffers are not modelled. They hold nothing and always answer the same.
- The `dateutil` parser is a parameter of the log parsing: a partial function from text to a timestamp. The `matplotlib` import and the script's `main` are not modelled.
- Each log line is modelled without its newline. `.` then matches any character and `$` is the end of the line.
- The End-of-Tx flag of the resequencing-buffer base class is taken to start false.
- The older tree's `DataPacket` declares no `isEndOfTx`, yet its output buffer, Go-Back-N and Stop-and-Wait resequencing buffers call it (arq-benchmark/arq/resequencing_buffers/stop_and_wait_rs.cpp:63). The model of those buffers uses the current tree's definition, `DataPackets.IsEndOfTx`: a zero length field.
- CircularRt.WindowBuffer.GoBackN: requires a window size of at least 1. The source accepts 0, as `--window-size 0` (src/launcher.cpp:211-212) reaches the constructor and builds an empty vector. Such a buffer is never ready for a packet, never has one pending and ignores every ACK, but `addPacket` would index the empty vector and take a modulus by 0, which is undefined behaviour. That case is not modelled.
- CircularRt.WindowBuffer.SelectiveRepeat: requires a window size of at least 1 for the same reason. src/arq/retransmission_buffers/selective_repeat_rt.cpp:7-17 accepts 0 with the same consequences.
- The header files that disagree with their .cpp are not followed; the .cpp is: `go_back_n_rt.hpp`, `selective_repeat_rs.hpp`, and the older `stop_and_wait_rt.hpp` constructor without the adaptive flag. `dummy_tcp_rs.hpp` declares neither `receiveBuffer_` nor `processReceiveBuffer`; the model gives the class both, as its .cpp uses them.
- The older Go-Back-N buffer leaves `expectedSN_` uninitialised. The older Stop-and-Wait buffer uses `FIRST_SEQUENCE_NUMBER`, which no header defines. The dummy SCTP buffer's constructor leaves its next SN uninitialised. In all three the first expected SN is a constructor argument.
- CircularRt.WindowBuffer.Valid: requires that the occupied slots form a prefix of the window. The constructors establish this and every method keeps it. The source keeps it only implicitly, by adding in order and acknowledging cumulatively.
- SelectiveRepeatRs.SelectiveRepeat.AddPacket: the out-of-order window that the class header declares is not modelled, because the .cpp never uses it.
- DummySctpRs.DummySctp.AddPacket: the padding `assert` of the source is a precondition (`Padded`). A packet that fails it would abort the program, so that path is not modelled.
- AdaptiveStopAndWaitRt.Halved: halving a negative duration rounds toward zero, as C++ integer division does. Nothing beyond that is claimed for negative durations.
- DataPackets.DataPacket.FromSerialData: returns DataPacketException for fewer than 5 bytes, which is what the size check in src/arq/common/data_packet.cpp:42 intends. On short data that check never fires. The header read span is `subspan(0, 5)` of the data (lines 164-167), which is undefined behaviour when the data is shorter, so the size test always sees 5 bytes. The model does not capture that undefined read.
- LegacyDataPackets.LegacyDataPacket.FromSerialData: the same intended exception for fewer than 5 bytes. In arq-benchmark/arq/data_packet.cpp the header read span at lines 142-145 is also `subspan(0, 5)`, so the short-input throw is unreachable as written and the undefined read is not modelled.
- LogParsing.LazyGroup: the search for the group starts at the first occurrence of the prefix only. A later prefix occurrence cannot match where the first one does not, because the lazy group may grow to any length.

## Findings

| source | as written | input that shows it | evidently intended | confidence | as-written member | corrected member |
|---|---|---|---|---|---|---|
| arq-benchmark/arq/data_packet.hpp:71-77 | both memcpy calls of the inline decoder copy from the uninitialised local `temp` into the buffer, so the buffer's SN and length bytes are overwritten and both fields take the same unset value | SN 0xE810 and length 0x12 decode as one unset value twice (0 and 0 when `temp` holds zeros), and bytes 1-4 of the buffer are overwritten | each field is read from its own bytes, so decoding inverts encoding | not executed | LegacyDataPackets.HeaderTestAsWritten | LegacyDataPackets.HeaderTest |
| src/arq/retransmission_buffers/go_back_n_rt.cpp:95 | after a cumulative ACK the start index is increased but not reduced modulo the window size | a window of 2 holding SNs 0 and 1, acknowledged with 0 and then 1: the start index becomes 2, outside the vector | the start index is taken modulo the window size | not executed | CircularRt.StartIndexEscapes | CircularRt.WindowBuffer.AcknowledgePacket |
| src/arq/retransmission_buffers/go_back_n_rt.cpp:87-90 | the clearing loop decrements the count once per acknowledged SN, occupied or not | a window of 3 holding one packet, ACKed with an SN two past it: the count becomes -2 | only slots that held packets are counted off, so the count stays within 0 and the window | not executed | CircularRt.CountGoesNegative | CircularRt.WindowBuffer.AcknowledgePacket |
| src/arq/resequencing_buffers/go_back_n_rs.cpp:22-26 | a rejected packet is never ACKed | after packet 100 is accepted, a duplicate 100 gets no ACK, where rs_tests_common.hpp:67-70 expects 100 | once a packet has been accepted, a rejected one is answered with the last in-order SN | not executed | GoBackNRs.OutOfOrderAsWritten | GoBackNRs.GoBackN.AddPacketReAcking |
| arq-benchmark/arq/retransmission_buffer.cpp:5-8 | adding a packet does not clear the acknowledged flag | ACK packet 0, then add packet 1: it is never offered for retransmission nor pending | each new packet starts unacknowledged | not executed | PlainRetransmission.NeverPendingAgain | PlainRetransmission.RetransmissionBuffer.AddPacketResetting |
| src/arq/resequencing_buffers/stop_and_wait_rs.cpp:26 | an old SN is recognised with a plain `<` on 16-bit values | SN 65535 is delivered and the expected SN wraps to 0; its ACK is lost and the retransmitted 65535 is not re-ACKed, so the sender retransmits forever | SNs before the expected one in serial-number order are re-ACKed | not executed | StopAndWaitRs.LostAckAfterWrapAsWritten | StopAndWaitRs.StopAndWait.AddPacketSerial |
| arq-benchmark/arq/resequencing_buffers/stop_and_wait_rs.cpp:27 | the successor test `sn == expected + 1` is evaluated in int | after SN 65535, the packet with SN 0 is never accepted | the successor is taken modulo 2^16 | not executed | LegacyStopAndWaitRs.StallAsWritten | LegacyStopAndWaitRs.StopAndWait.AddPacketWrapping |
| arq-benchmark/arq/resequencing_buffers/dummy_tcp_rs.cpp:228-230 | the scan (and the one at lines 260-262) for the end of a run of 2s has no bound on the vector's length | a retransmitted packet alone in the vector is followed only by 2s, so the scan reads past the end | the scan stops at the end of the vector | not executed | DummyTcpRs.RetransmissionOverrunsAsWritten | DummyTcpRs.RetransmissionDropped |
