/** The pieces of the launcher of the current tree that are not thread or
    socket orchestration: reading the ARQ protocol from its command-line
    name, the window size used when none is given, and the End-of-Tx packet
    the transmitter sends last. */
module Launcher {
  import opened ArqBasics
  import opened DataPackets

  datatype ArqProtocol = DUMMY_SCTP | STOP_AND_WAIT | GO_BACK_N | SELECTIVE_REPEAT

  /** arqProtocolToString: the command-line name of each protocol. */
  function ArqProtocolToString(protocol: ArqProtocol): (r: string)
    ensures |r| > 0
  {
    match protocol
    case DUMMY_SCTP => "dummy-sctp"
    case STOP_AND_WAIT => "stop-and-wait"
    case GO_BACK_N => "go-back-n"
    case SELECTIVE_REPEAT => "selective-repeat"
  }

  /** getArqProtocolFromStr: the protocols are tried in declaration order; a
      string naming none of them throws HelpException. */
  function GetArqProtocolFromStr(input: string): (r: Result<ArqProtocol>)
    ensures r.Ok? ==> ArqProtocolToString(r.value) == input
    ensures r.Err? ==> r.error == HelpException
    ensures r.Err? <==> forall p: ArqProtocol :: ArqProtocolToString(p) != input
  {
    if input == ArqProtocolToString(DUMMY_SCTP) then Ok(DUMMY_SCTP)
    else if input == ArqProtocolToString(STOP_AND_WAIT) then Ok(STOP_AND_WAIT)
    else if input == ArqProtocolToString(GO_BACK_N) then Ok(GO_BACK_N)
    else if input == ArqProtocolToString(SELECTIVE_REPEAT) then Ok(SELECTIVE_REPEAT)
    else Err(HelpException)
  }

  /** Every protocol is read back from its own name, so no two protocols
      share a name. */
  lemma {:induction false} ProtocolNameRoundTrip(p: ArqProtocol, q: ArqProtocol)
    ensures GetArqProtocolFromStr(ArqProtocolToString(p)) == Ok(p)
    ensures ArqProtocolToString(p) == ArqProtocolToString(q) ==> p == q
  {
    match p
    case DUMMY_SCTP =>
    case STOP_AND_WAIT =>
      assert "stop-and-wait"[0] != "dummy-sctp"[0];
    case GO_BACK_N =>
      assert "go-back-n"[0] != "dummy-sctp"[0] && "go-back-n"[0] != "stop-and-wait"[0];
    case SELECTIVE_REPEAT =>
      assert "selective-repeat"[1] != "stop-and-wait"[1];
      assert "selective-repeat"[0] != "dummy-sctp"[0] && "selective-repeat"[0] != "go-back-n"[0];
  }

  /** A name in another case is not recognised. */
  lemma UpperCaseRefused()
    ensures GetArqProtocolFromStr("GO-BACK-N") == Err(HelpException)
  {
    assert "GO-BACK-N"[0] != "dummy-sctp"[0] && "GO-BACK-N"[0] != "stop-and-wait"[0];
    assert "GO-BACK-N"[0] != "go-back-n"[0] && "GO-BACK-N"[0] != "selective-repeat"[0];
  }

  /** The window size used by startTransmitter for Go-Back-N and
      Selective-Repeat: the configured one, or 100 when none was given. */
  function WindowSizeOrDefault(windowSize: Option<U16>): (r: U16)
    ensures windowSize.Some? ==> r == windowSize.value
    ensures windowSize.None? ==> r == 100
  {
    if windowSize.None? then 100 else windowSize.value
  }

  /** The End-of-Tx packet of transmitPackets: a default packet given
      conversation id 1 and data length 0. It is End-of-Tx (the assert that
      follows in the launcher holds) and consists of its header alone. */
  method MakeEndOfTxPacket() returns (p: Packet)
    ensures IsEndOfTx(p) && WellFormed(p)
    ensures p.header == Header(1, 0, 0) && p.data == HeaderBytes(Header(1, 0, 0))
  {
    var endOfTxPacket := new DataPacket();
    endOfTxPacket.UpdateConversationId(1);
    endOfTxPacket.UpdateDataLength(0);
    p := endOfTxPacket.Value();
    assert p.data == p.data[..HEADER_SIZE];
  }
}
