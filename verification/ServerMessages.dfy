/** The messages the server builds for its clients, and what a client reads from them. */
module ServerMessages {
  import opened Bytes
  import opened ChunkStream
  import opened ChunkFragmentation
  import opened ChunkWriter
  import opened ChunkRoundTrip
  import opened Amf0
  import opened Amf0RoundTrip
  import AmfCodec

  const CONTROL_CSID: nat := 2
  const AMF0_COMMAND: byte := 20
  const WINDOW_ACK_SIZE: byte := 5
  const SET_PEER_BANDWIDTH: byte := 6
  const USER_CONTROL: byte := 4
  const SERVER_CHUNK_SIZE: nat := 4096
  const WINDOW: uint32 := 2500000

  datatype CommandResponse = CommandResponse(
    commandName: seq<byte>,
    transactionId: uint64,
    commandObject: Value,
    args: seq<Value>,
    messageStreamId: uint32)
  {
    function Values(): seq<Value> {
      [String(commandName), Number(transactionId), commandObject] + args
    }

    /** What the writers below can carry without loss. */
    predicate Sendable() {
      EncodableElems(Values(), STRING_LIMIT) && ElemsFit(Values()) && |EncodeElems(Values())| < 0x100_0000
    }
  }

  function ControlMessage(typeId: byte, payload: seq<byte>): Message {
    Message(CONTROL_CSID, 0, |payload|, typeId, 0, payload)
  }

  function ResponseMessage(r: CommandResponse, csid: nat): Message {
    var payload := EncodeElems(r.Values());
    Message(csid, 0, |payload|, AMF0_COMMAND, r.messageStreamId, payload)
  }

  method BuildProtocolControlMessage(messageTypeId: byte, value: uint32) returns (r: seq<byte>)
    ensures r == Serialized(Message(2, 0, 4, messageTypeId, 0, BigEndian4(value)), 128)
  {
    r := SerializeChunk(2, 0, 4, messageTypeId, 0, BigEndian4(value), DEFAULT_CHUNK_SIZE);
  }

  method BuildSetPeerBandwidth(windowSize: uint32, limitType: byte) returns (r: seq<byte>)
    ensures r == Serialized(Message(2, 0, 5, 6, 0, BigEndian4(windowSize) + [limitType]), 128)
  {
    r := SerializeChunk(2, 0, 5, SET_PEER_BANDWIDTH, 0, BigEndian4(windowSize) + [limitType], DEFAULT_CHUNK_SIZE);
  }

  method BuildUserControlMessage(eventType: nat, eventData: uint32) returns (r: seq<byte>)
    requires eventType < 0x10000
    ensures r == Serialized(Message(2, 0, 6, 4, 0, BigEndian2(eventType) + BigEndian4(eventData)), 128)
  {
    r := SerializeChunk(2, 0, 6, USER_CONTROL, 0, BigEndian2(eventType) + BigEndian4(eventData), DEFAULT_CHUNK_SIZE);
  }

  method BuildCommandResponse(response: CommandResponse, chunkStreamId: uint32, chunkSize: nat) returns (r: seq<byte>)
    requires chunkSize > 0
    ensures r == Serialized(ResponseMessage(response, chunkStreamId), chunkSize)
  {
    hide Encode;
    var payload := AmfCodec.Codec.EncodeAMF0(String(response.commandName));
    var txId := AmfCodec.Codec.EncodeAMF0(Number(response.transactionId));
    payload := payload + txId;
    var cmdObj := AmfCodec.Codec.EncodeAMF0(response.commandObject);
    payload := payload + cmdObj;
    var i: nat := 0;
    HeadOfValues(response);
    assert response.args[0..] == response.args;
    while i < |response.args|
      invariant i <= |response.args|
      invariant payload + EncodeElems(response.args[i..]) == EncodeElems(response.Values())
    {
      var arg := AmfCodec.Codec.EncodeAMF0(response.args[i]);
      assert response.args[i..][1..] == response.args[i + 1..];
      payload := payload + arg;
      i := i + 1;
    }
    assert response.args[i..] == [] && payload + [] == payload;
    r := SerializeChunk(chunkStreamId, 0, |payload|, AMF0_COMMAND, response.messageStreamId, payload, chunkSize);
  }

  lemma HeadOfValues(r: CommandResponse)
    ensures EncodeElems(r.Values())
         == Encode(String(r.commandName)) + Encode(Number(r.transactionId)) + Encode(r.commandObject) + EncodeElems(r.args)
  {
    hide Encode;
    var vs := r.Values();
    var vs1, vs2 := [Number(r.transactionId), r.commandObject] + r.args, [r.commandObject] + r.args;
    assert vs[1..] == vs1 && vs1[1..] == vs2 && vs2[1..] == r.args;
    assert EncodeElems(vs) == Encode(String(r.commandName)) + EncodeElems(vs1);
    assert EncodeElems(vs1) == Encode(Number(r.transactionId)) + EncodeElems(vs2);
  }

  // ----- the reply to a command

  /** Stream-level responses go out on chunk stream 4, the others on the stream the command came in on. */
  function ResponseCsid(r: CommandResponse, commandCsid: nat): nat {
    if r.messageStreamId != 0 then 4 else commandCsid
  }

  function ResponseMessages(rs: seq<CommandResponse>, commandCsid: nat): (ms: seq<Message>)
    ensures |ms| == |rs|
  {
    if rs == [] then []
    else [ResponseMessage(rs[0], ResponseCsid(rs[0], commandCsid))] + ResponseMessages(rs[1..], commandCsid)
  }

  /** What precedes the response to a connect: window, bandwidth, and the larger chunk size. */
  function ConnectPreamble(): seq<Message> {
    [ControlMessage(WINDOW_ACK_SIZE, BigEndian4(WINDOW)),
     ControlMessage(SET_PEER_BANDWIDTH, BigEndian4(WINDOW) + [2]),
     ControlMessage(MSG_TYPE_SET_CHUNK_SIZE, BigEndian4(SERVER_CHUNK_SIZE))]
  }

  function Reply(isConnect: bool, rs: seq<CommandResponse>, commandCsid: nat): seq<Message> {
    (if isConnect then ConnectPreamble() else []) + ResponseMessages(rs, commandCsid)
  }

  /** The bytes of a reply, and the chunk size for what follows. */
  method BuildReply(isConnect: bool, responses: seq<CommandResponse>, commandCsid: uint32, chunkSize: nat)
    returns (combined: seq<byte>, serverChunkSize: nat)
    requires chunkSize >= MIN_CHUNK_SIZE
    ensures combined == SendAll(chunkSize, Reply(isConnect, responses, commandCsid))
    ensures serverChunkSize == SizeAfterAll(chunkSize, Reply(isConnect, responses, commandCsid))
    ensures serverChunkSize == if isConnect then SERVER_CHUNK_SIZE else chunkSize
  {
    hide Serialized, SendAll, ResponseMessages, SizeAfterAll;
    combined, serverChunkSize := [], chunkSize;
    if isConnect {
      var windowAck := BuildProtocolControlMessage(WINDOW_ACK_SIZE, WINDOW);
      var bandwidth := BuildSetPeerBandwidth(WINDOW, 2);
      var setSize := BuildProtocolControlMessage(MSG_TYPE_SET_CHUNK_SIZE, SERVER_CHUNK_SIZE);
      combined := windowAck + bandwidth + setSize;
      serverChunkSize := SERVER_CHUNK_SIZE;
      PreambleBytes(chunkSize);
    }
    NothingSent(chunkSize);
    SendAppend(chunkSize, if isConnect then ConnectPreamble() else [], ResponseMessages(responses, commandCsid));
    ResponsesKeepSize(serverChunkSize, responses, commandCsid);
    combined := AppendResponses(combined, responses, commandCsid, serverChunkSize);
  }

  lemma NothingSent(chunkSize: nat)
    requires chunkSize > 0
    ensures SendAll(chunkSize, []) == [] && SizeAfterAll(chunkSize, []) == chunkSize
  {}

  method AppendResponses(combined: seq<byte>, responses: seq<CommandResponse>, commandCsid: uint32, serverChunkSize: nat)
    returns (r: seq<byte>)
    requires serverChunkSize > 0
    ensures r == combined + SendAll(serverChunkSize, ResponseMessages(responses, commandCsid))
  {
    hide Serialized, SendAll, ResponseMessages, ResponseMessage;
    r := combined;
    ghost var all := SendAll(serverChunkSize, ResponseMessages(responses, commandCsid));
    var i: nat := 0;
    assert responses[0..] == responses;
    while i < |responses|
      invariant i <= |responses|
      invariant r + SendAll(serverChunkSize, ResponseMessages(responses[i..], commandCsid)) == combined + all
    {
      var response := responses[i];
      var csid := commandCsid;
      if response.messageStreamId != 0 {
        csid := 4;
      }
      var bytes := BuildCommandResponse(response, csid, serverChunkSize);
      NextResponse(serverChunkSize, responses[i..], commandCsid);
      assert responses[i..][1..] == responses[i + 1..];
      ghost var later := SendAll(serverChunkSize, ResponseMessages(responses[i + 1..], commandCsid));
      assert r + (bytes + later) == (r + bytes) + later;
      r := r + bytes;
      i := i + 1;
    }
    NoMoreResponses(serverChunkSize, responses, commandCsid);
    assert r + [] == r;
  }

  lemma NoMoreResponses(chunkSize: nat, rs: seq<CommandResponse>, commandCsid: nat)
    requires chunkSize > 0
    ensures SendAll(chunkSize, ResponseMessages(rs[|rs|..], commandCsid)) == []
  {}

  lemma NextResponse(chunkSize: nat, rs: seq<CommandResponse>, commandCsid: nat)
    requires chunkSize > 0 && rs != []
    ensures SendAll(chunkSize, ResponseMessages(rs, commandCsid))
         == Serialized(ResponseMessage(rs[0], ResponseCsid(rs[0], commandCsid)), chunkSize)
            + SendAll(chunkSize, ResponseMessages(rs[1..], commandCsid))
  {
    hide Serialized;
    var ms := ResponseMessages(rs, commandCsid);
    assert ms[1..] == ResponseMessages(rs[1..], commandCsid);
  }

  lemma {:induction false} ResponsesKeepSize(chunkSize: nat, rs: seq<CommandResponse>, commandCsid: nat)
    ensures SizeAfterAll(chunkSize, ResponseMessages(rs, commandCsid)) == chunkSize
  {
    if rs != [] {
      ResponsesKeepSize(chunkSize, rs[1..], commandCsid);
      assert ResponseMessages(rs, commandCsid)[1..] == ResponseMessages(rs[1..], commandCsid);
    }
  }

  lemma {:induction false} SendAppend(chunkSize: nat, a: seq<Message>, b: seq<Message>)
    requires chunkSize > 0
    ensures SizeAfterAll(chunkSize, a) > 0
    ensures SendAll(chunkSize, a + b) == SendAll(chunkSize, a) + SendAll(SizeAfterAll(chunkSize, a), b)
    ensures SizeAfterAll(chunkSize, a + b) == SizeAfterAll(SizeAfterAll(chunkSize, a), b)
    decreases |a|
  {
    hide Serialized;
    if a == [] {
      assert a + b == b;
    } else {
      assert (a + b)[1..] == a[1..] + b;
      SendAppend(SizeAnnounced(chunkSize, a[0]), a[1..], b);
    }
  }

  /** The preamble, written with the default chunk size, is what a writer at any legal chunk size would write. */
  lemma PreambleBytes(chunkSize: nat)
    requires chunkSize >= MIN_CHUNK_SIZE
    ensures SendAll(chunkSize, ConnectPreamble())
         == Serialized(ConnectPreamble()[0], DEFAULT_CHUNK_SIZE) + Serialized(ConnectPreamble()[1], DEFAULT_CHUNK_SIZE)
            + Serialized(ConnectPreamble()[2], DEFAULT_CHUNK_SIZE)
    ensures SizeAfterAll(chunkSize, ConnectPreamble()) == SERVER_CHUNK_SIZE
  {
    var ms := ConnectPreamble();
    OneChunkAnySize(ms[0], chunkSize, DEFAULT_CHUNK_SIZE);
    OneChunkAnySize(ms[1], chunkSize, DEFAULT_CHUNK_SIZE);
    OneChunkAnySize(ms[2], chunkSize, DEFAULT_CHUNK_SIZE);
    hide Serialized, BigEndian4;
    BigEndian4Inverse(SERVER_CHUNK_SIZE, []);
    assert BigEndian4(SERVER_CHUNK_SIZE) + [] == BigEndian4(SERVER_CHUNK_SIZE);
    assert SizeAnnounced(chunkSize, ms[2]) == SERVER_CHUNK_SIZE;
    assert ms[1..][1..] == [ms[2]] && [ms[2]][1..] == [];
    assert SendAll(chunkSize, [ms[2]]) == Serialized(ms[2], chunkSize) + [];
  }

  // ----- what the client makes of it

  /** The command in a message's payload: name, transaction id, command object and arguments, as they come off the wire. */
  predicate Carries(m: Message, r: CommandResponse) {
    && m.timestamp == 0 && m.messageTypeId == 20 && m.messageStreamId == r.messageStreamId
    && match DecodeAll(m.payload, 0)
       case AllOk(values, _) =>
         ElemsDepth(r.Values()) <= 33
         && values == [String(r.commandName), Number(r.transactionId), Norm(r.commandObject)] + NormElems(r.args)
       case AllErr(code, _) => ElemsDepth(r.Values()) > 33 && code == NestingTooDeep
  }

  lemma NormOfValues(r: CommandResponse)
    ensures NormElems(r.Values())
         == [String(r.commandName), Number(r.transactionId), Norm(r.commandObject)] + NormElems(r.args)
  {
    var vs := r.Values();
    var vs1, vs2 := [Number(r.transactionId), r.commandObject] + r.args, [r.commandObject] + r.args;
    assert vs[1..] == vs1 && vs1[1..] == vs2 && vs2[1..] == r.args;
    assert NormElems(vs) == [String(r.commandName)] + NormElems(vs1);
    assert NormElems(vs1) == [Number(r.transactionId)] + NormElems(vs2);
  }

  lemma ResponseCarries(r: CommandResponse, csid: nat)
    requires r.Sendable()
    ensures Carries(ResponseMessage(r, csid), r)
  {
    hide DecodeAll, EncodeElems, EncodableElems, ElemsFit, ElemsDepth, Encodable;
    AllReadBack(r.Values(), 0);
    NormOfValues(r);
  }

  lemma {:induction false} ResponsesCarry(rs: seq<CommandResponse>, commandCsid: nat)
    requires 2 <= commandCsid <= MAX_CSID
    requires forall r :: r in rs ==> r.Sendable()
    ensures var ms := ResponseMessages(rs, commandCsid);
            forall i :: 0 <= i < |rs| ==> Writable(ms[i]) && Carries(ms[i], rs[i])
  {
    hide Carries;
    if rs != [] {
      assert rs[0] in rs;
      ResponseCarries(rs[0], ResponseCsid(rs[0], commandCsid));
      ResponsesCarry(rs[1..], commandCsid);
    }
  }

  /** Window and bandwidth of 2500000, the bandwidth limit dynamic, and chunks of 4096 bytes, all on chunk stream 2. */
  lemma PreambleMessages()
    ensures ConnectPreamble() == [Message(2, 0, 4, 5, 0, [0x00, 0x26, 0x25, 0xA0]), Message(2, 0, 5, 6, 0, [0x00, 0x26, 0x25, 0xA0, 2]),
                                  Message(2, 0, 4, 1, 0, [0x00, 0x00, 0x10, 0x00])]
  {
    assert BigEndian4(WINDOW) == [0x00, 0x26, 0x25, 0xA0];
    assert BigEndian4(WINDOW) + [2] == [0x00, 0x26, 0x25, 0xA0, 2];
    assert BigEndian4(SERVER_CHUNK_SIZE) == [0x00, 0x00, 0x10, 0x00];
  }

  lemma {:induction false} ResponsesOnStreams(rs: seq<CommandResponse>, commandCsid: nat)
    ensures forall i :: 0 <= i < |rs| ==>
              ResponseMessages(rs, commandCsid)[i].chunkStreamId == if rs[i].messageStreamId == 0 then commandCsid else 4
  {
    if rs != [] {
      ResponsesOnStreams(rs[1..], commandCsid);
    }
  }

  /**
   End to end: a client that reads the reply to a command, in whatever pieces it arrives, gets
   the connect preamble if there was one, then one message for each response, in order, whose
   payload decodes to the response, and ends with the server's chunk size.
   */
  lemma ClientReadsReply(s: ParserState, isConnect: bool, rs: seq<CommandResponse>, commandCsid: nat, pieces: seq<seq<byte>>)
    requires s.Valid() && Clean(s) && 2 <= commandCsid <= MAX_CSID
    requires forall r :: r in rs ==> r.Sendable()
    requires Flatten(pieces) == SendAll(s.chunkSize, Reply(isConnect, rs, commandCsid))
    ensures var f := Feed(s, [], pieces);
            var n := if isConnect then 3 else 0;
            && f.residue == [] && Clean(f.st)
            && f.st.chunkSize == (if isConnect then 4096 else s.chunkSize)
            && |f.out| == n + |rs|
            && (isConnect ==>
                  f.out[..3] == [Message(2, 0, 4, 5, 0, [0x00, 0x26, 0x25, 0xA0]), Message(2, 0, 5, 6, 0, [0x00, 0x26, 0x25, 0xA0, 2]),
                                 Message(2, 0, 4, 1, 0, [0x00, 0x00, 0x10, 0x00])])
            && forall i :: 0 <= i < |rs| ==>
                 Carries(f.out[n + i], rs[i]) && f.out[n + i].chunkStreamId == if rs[i].messageStreamId == 0 then commandCsid else 4
  {
    hide Carries, Run, Feed, SendAll;
    var preamble := if isConnect then ConnectPreamble() else [];
    var ms := ResponseMessages(rs, commandCsid);
    ResponsesCarry(rs, commandCsid);
    ResponsesOnStreams(rs, commandCsid);
    PreambleMessages();
    PreambleBytes(s.chunkSize);
    SendAppend(s.chunkSize, preamble, ms);
    ResponsesKeepSize(SizeAfterAll(s.chunkSize, preamble), rs, commandCsid);
    forall m | m in preamble + ms ensures Writable(m) {
      if m in ms {
        var i :| 0 <= i < |ms| && ms[i] == m;
      }
    }
    RoundTrip(s, preamble + ms, pieces);
  }
}
