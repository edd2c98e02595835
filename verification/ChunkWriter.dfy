/**
 The printer of the chunk stream: one Type 0 chunk and as many Type 3 chunks as the payload
 needs, the extended timestamp repeated on each of them.
 */
module ChunkWriter {
  import opened Bytes
  import opened ChunkStream

  /** What the writer can put on the wire: a chunk stream id and a length that their fields can hold. */
  predicate Writable(m: Message) {
    2 <= m.chunkStreamId <= MAX_CSID && m.messageLength == |m.payload| < 0x100_0000
  }

  function BasicHeaderBytes(fmt: nat, csid: nat): (b: seq<byte>)
    requires fmt <= 3
  {
    if csid < 64 then [fmt * 64 + csid]
    else if csid < 320 then [fmt * 64, csid - 64]
    else
      var csidMinus64 := (csid - 64) % 0x10000;
      [fmt * 64 + 1, csidMinus64 % 0x100, csidMinus64 / 0x100]
  }

  function ExtendedTimestampBytes(timestamp: uint32): seq<byte> {
    if timestamp >= EXTENDED_TIMESTAMP_MARKER then BigEndian4(timestamp) else []
  }

  function MessageHeaderBytes(m: Message): (b: seq<byte>)
    ensures |b| == 11
  {
    BigEndian3(Min(m.timestamp, EXTENDED_TIMESTAMP_MARKER)) + BigEndian3(m.messageLength)
    + [m.messageTypeId] + LittleEndian4(m.messageStreamId)
  }

  function FirstHeader(m: Message): seq<byte> {
    BasicHeaderBytes(0, m.chunkStreamId) + (MessageHeaderBytes(m) + ExtendedTimestampBytes(m.timestamp))
  }

  function ContinuationHeader(m: Message): seq<byte> {
    BasicHeaderBytes(3, m.chunkStreamId) + ExtendedTimestampBytes(m.timestamp)
  }

  /** The chunks from payload byte `offset` on, all of Type 3. */
  function Continuations(m: Message, chunkSize: nat, offset: nat): seq<seq<byte>>
    requires chunkSize > 0
    decreases |m.payload| - offset
  {
    if offset >= |m.payload| then []
    else
      var n := Min(chunkSize, |m.payload| - offset);
      [ContinuationHeader(m) + m.payload[offset..offset + n]] + Continuations(m, chunkSize, offset + n)
  }

  /** The chunks of a message. */
  function ChunksOf(m: Message, chunkSize: nat): seq<seq<byte>>
    requires chunkSize > 0
  {
    var n := Min(chunkSize, |m.payload|);
    [FirstHeader(m) + m.payload[..n]] + Continuations(m, chunkSize, n)
  }

  function Serialized(m: Message, chunkSize: nat): seq<byte>
    requires chunkSize > 0
  {
    Flatten(ChunksOf(m, chunkSize))
  }

  method AppendBasicHeader(result: seq<byte>, fmt: nat, csid: uint32) returns (r: seq<byte>)
    requires fmt <= 3
    ensures r == result + BasicHeaderBytes(fmt, csid)
  {
    if csid < 64 {
      r := result + [fmt * 64 + csid];
    } else if csid < 320 {
      r := result + [fmt * 64] + [csid - 64];
    } else {
      var csidMinus64: nat := (csid - 64) % 0x10000;
      r := result + [fmt * 64 + 1] + [csidMinus64 % 0x100] + [csidMinus64 / 0x100 % 0x100];
    }
  }

  /** What is still to be written once the headers and `offset` payload bytes are out. */
  function Unwritten(m: Message, chunkSize: nat, offset: nat): seq<byte>
    requires chunkSize > 0 && offset <= |m.payload|
  {
    if offset > 0 then Flatten(Continuations(m, chunkSize, offset))
    else
      var n := Min(chunkSize, |m.payload|);
      m.payload[..n] + Flatten(Continuations(m, chunkSize, n))
  }

  lemma UnwrittenStep(m: Message, chunkSize: nat, offset: nat)
    requires chunkSize > 0 && offset < |m.payload|
    ensures var n := Min(chunkSize, |m.payload| - offset);
            Unwritten(m, chunkSize, offset)
              == (if offset > 0 then ContinuationHeader(m) else []) + m.payload[offset..offset + n] + Unwritten(m, chunkSize, offset + n)
  {
    var n := Min(chunkSize, |m.payload| - offset);
    var b := ContinuationHeader(m) + m.payload[offset..offset + n];
    var later := Continuations(m, chunkSize, offset + n);
    assert ([b] + later)[1..] == later;
    assert [] + m.payload[offset..offset + n] == m.payload[offset..offset + n];
  }

  lemma SerializedUnwritten(m: Message, chunkSize: nat)
    requires chunkSize > 0
    ensures Serialized(m, chunkSize) == FirstHeader(m) + Unwritten(m, chunkSize, 0)
  {
    var n := Min(chunkSize, |m.payload|);
    var b := FirstHeader(m) + m.payload[..n];
    var later := Continuations(m, chunkSize, n);
    assert ([b] + later)[1..] == later;
  }

  method AppendFirstHeader(m: Message) returns (r: seq<byte>)
    requires m.chunkStreamId < TWO_TO_THE_32
    ensures r == FirstHeader(m)
  {
    r := AppendBasicHeader([], 0, m.chunkStreamId);
    var ts: nat := if m.timestamp >= EXTENDED_TIMESTAMP_MARKER then EXTENDED_TIMESTAMP_MARKER else m.timestamp;
    r := r + BigEndian3(ts);
    r := r + BigEndian3(m.messageLength);
    r := r + [m.messageTypeId];
    r := r + LittleEndian4(m.messageStreamId);
    if m.timestamp >= EXTENDED_TIMESTAMP_MARKER {
      r := r + BigEndian4(m.timestamp);
    }
  }

  method AppendContinuationHeader(result: seq<byte>, m: Message) returns (r: seq<byte>)
    requires m.chunkStreamId < TWO_TO_THE_32
    ensures r == result + ContinuationHeader(m)
  {
    r := AppendBasicHeader(result, 3, m.chunkStreamId);
    if m.timestamp >= EXTENDED_TIMESTAMP_MARKER {
      r := r + BigEndian4(m.timestamp);
    }
  }

  method SerializeChunk(csid: uint32, timestamp: uint32, messageLength: nat, typeId: byte, streamId: uint32,
                        payload: seq<byte>, chunkSize: nat)
    returns (result: seq<byte>)
    requires chunkSize > 0
    ensures result == Serialized(Message(csid, timestamp, messageLength, typeId, streamId, payload), chunkSize)
  {
    hide Continuations, Unwritten, FirstHeader, ContinuationHeader, Serialized;
    var m := Message(csid, timestamp, messageLength, typeId, streamId, payload);
    result := AppendFirstHeader(m);
    var offset := 0;
    SerializedUnwritten(m, chunkSize);
    while offset < |payload|
      invariant offset <= |payload|
      invariant result + Unwritten(m, chunkSize, offset) == Serialized(m, chunkSize)
    {
      UnwrittenStep(m, chunkSize, offset);
      ghost var written := result;
      var bytesToWrite := Min(chunkSize, |payload| - offset);
      if offset > 0 {
        result := AppendContinuationHeader(result, m);
      }
      ghost var header := if offset > 0 then ContinuationHeader(m) else [];
      ghost var piece := payload[offset..offset + bytesToWrite];
      ghost var later := Unwritten(m, chunkSize, offset + bytesToWrite);
      assert written + (header + piece + later) == (written + header + piece) + later;
      assert result == written + header;
      result := result + payload[offset..offset + bytesToWrite];
      offset := offset + bytesToWrite;
    }
    UnwrittenEnd(m, chunkSize);
    assert result + [] == result;
  }

  lemma UnwrittenEnd(m: Message, chunkSize: nat)
    requires chunkSize > 0
    ensures Unwritten(m, chunkSize, |m.payload|) == []
  {}

  /** A payload that fits one chunk is written the same under every chunk size it fits. */
  lemma OneChunkAnySize(m: Message, a: nat, b: nat)
    requires 0 < a && 0 < b && |m.payload| <= a && |m.payload| <= b
    ensures Serialized(m, a) == Serialized(m, b)
  {}

  /** The chunk size a sender goes by once it has sent `m`: what it announced, within what a receiver grants. */
  function SizeAnnounced(chunkSize: nat, m: Message): nat {
    if m.messageTypeId == 1 && m.messageStreamId == 0 && |m.payload| >= 4
    then Min(Max(FromBigEndian4(m.payload) % 0x8000_0000, 128), 65536)
    else chunkSize
  }

  /** The bytes of a sequence of messages; the chunk size follows the Set Chunk Size messages among them. */
  function SendAll(chunkSize: nat, ms: seq<Message>): seq<byte>
    requires chunkSize > 0
    decreases |ms|
  {
    if ms == [] then []
    else Serialized(ms[0], chunkSize) + SendAll(SizeAnnounced(chunkSize, ms[0]), ms[1..])
  }

  function SizeAfterAll(chunkSize: nat, ms: seq<Message>): nat
    decreases |ms|
  {
    if ms == [] then chunkSize else SizeAfterAll(SizeAnnounced(chunkSize, ms[0]), ms[1..])
  }
}
