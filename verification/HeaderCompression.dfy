/**
 What a client may put on the wire besides Type 0 chunks: a message that begins with a chunk of Type 1, 2 or 3,
 which leaves out what the previous message on its chunk stream already said (section 5.3.1.2 of the Adobe RTMP
 specification 1.0).
 */
module HeaderCompression {
  import opened Bytes
  import opened ChunkStream
  import opened ChunkFragmentation
  import opened ChunkWriter
  import opened ChunkRoundTrip

  // ----- reading one header

  lemma Type1FieldsRead(ss: StreamState, field: nat, length: nat, typeId: byte, rest: seq<byte>)
    requires field <= 0xFFFFFF && length < 0x100_0000
    ensures ApplyMessageHeader(ss, 1, BigEndian3(field) + BigEndian3(length) + [typeId] + rest)
         == StreamState(if field == 0xFFFFFF then ss.timestamp else (ss.timestamp + field) % 0x1_0000_0000,
                        if field == 0xFFFFFF then ss.timestampDelta else field,
                        length, typeId, ss.messageStreamId, field == 0xFFFFFF, ss.partialPayload, ss.remainingBytes)
  {
    hide BigEndian3, FromBigEndian3;
    var d := BigEndian3(field) + BigEndian3(length) + [typeId] + rest;
    assert d == BigEndian3(field) + d[3..] && d[3..] == BigEndian3(length) + d[6..];
    BigEndian3Inverse(field, d[3..]);
    BigEndian3Inverse(length, d[6..]);
  }

  /** A Type 1 header: a timestamp delta, which is extended from 0xFFFFFF on, a length and a type. */
  lemma Type1HeaderReads(ss: StreamState, delta: uint32, length: nat, typeId: byte, rest: seq<byte>)
    requires length < 0x100_0000
    ensures var ext := if delta >= 0xFFFFFF then BigEndian4(delta) else [];
            ReadHeader(ss, 1, BigEndian3(Min(delta, 0xFFFFFF)) + BigEndian3(length) + [typeId] + ext + rest)
              == HeaderDone(StreamState((ss.timestamp + delta) % 0x1_0000_0000, delta, length, typeId, ss.messageStreamId,
                                        delta >= 0xFFFFFF, ss.partialPayload, ss.remainingBytes), 7 + |ext|)
  {
    hide BigEndian3, FromBigEndian3, BigEndian4, FromBigEndian4, ApplyMessageHeader;
    var ext := if delta >= 0xFFFFFF then BigEndian4(delta) else [];
    var field := Min(delta, 0xFFFFFF);
    var d := BigEndian3(field) + BigEndian3(length) + [typeId] + ext + rest;
    assert d == BigEndian3(field) + BigEndian3(length) + [typeId] + (ext + rest) && d[7..] == ext + rest;
    Type1FieldsRead(ss, field, length, typeId, ext + rest);
    BigEndian4Inverse(delta, rest);
  }

  /** A Type 2 header: a timestamp delta only. */
  lemma Type2HeaderReads(ss: StreamState, delta: uint32, rest: seq<byte>)
    ensures var ext := if delta >= 0xFFFFFF then BigEndian4(delta) else [];
            ReadHeader(ss, 2, BigEndian3(Min(delta, 0xFFFFFF)) + ext + rest)
              == HeaderDone(StreamState((ss.timestamp + delta) % 0x1_0000_0000, delta, ss.messageLength, ss.messageTypeId,
                                        ss.messageStreamId, delta >= 0xFFFFFF, ss.partialPayload, ss.remainingBytes), 3 + |ext|)
  {
    hide BigEndian3, FromBigEndian3, BigEndian4, FromBigEndian4;
    var ext := if delta >= 0xFFFFFF then BigEndian4(delta) else [];
    var field := Min(delta, 0xFFFFFF);
    var d := BigEndian3(field) + ext + rest;
    assert d == BigEndian3(field) + d[3..] && d[3..] == ext + rest;
    BigEndian3Inverse(field, d[3..]);
    BigEndian4Inverse(delta, rest);
  }

  /**
   A Type 3 header repeats all of the previous one. Where a message begins with it, the source does not add the
   previous delta again, but reads and adds an extended one if the previous header had one; inside a message it
   skips the extended field.
   */
  lemma Type3HeaderReads(ss: StreamState, ext: uint32, rest: seq<byte>)
    ensures !ss.hasExtendedTimestamp ==> ReadHeader(ss, 3, rest) == HeaderDone(ss, 0)
    ensures ss.hasExtendedTimestamp && ss.Continuing() ==> ReadHeader(ss, 3, BigEndian4(ext) + rest) == HeaderDone(ss, 4)
    ensures ss.hasExtendedTimestamp && !ss.Continuing() ==>
              ReadHeader(ss, 3, BigEndian4(ext) + rest)
                == HeaderDone(ss.(timestamp := (ss.timestamp + ext) % 0x1_0000_0000, timestampDelta := ext), 4)
  {
    hide BigEndian4, FromBigEndian4;
    BigEndian4Inverse(ext, rest);
    assert (BigEndian4(ext) + rest)[0..] == BigEndian4(ext) + rest;
  }

  /**
   Section 5.3.1.2.4 has a message that begins with a Type 3 chunk add the previous delta again. With a sender that
   repeats it in the extended field where there is one, the source gives the standard's timestamp if and only if there
   is one, or the delta is 0.
   */
  lemma StandardDeltaIff(ss: StreamState, rest: seq<byte>)
    requires !ss.Continuing()
    ensures var ext := if ss.hasExtendedTimestamp then BigEndian4(ss.timestampDelta) else [];
            var h := ReadHeader(ss, 3, ext + rest);
            h.HeaderDone? && (h.ss.timestamp == (ss.timestamp + ss.timestampDelta) % 0x1_0000_0000
                              <==> ss.hasExtendedTimestamp || ss.timestampDelta == 0)
  {
    hide ReadHeader, BigEndian4;
    Type3HeaderReads(ss, ss.timestampDelta, rest);
    assert [] + rest == rest;
  }

  /** The third message of the example of section 5.3.2.1, due at 1040, is given the time of the second. */
  lemma RepeatedDeltaIsLost()
    ensures var second := ReadHeader(StreamState(1000, 0, 32, 8, 12345, false, [], 0), 2, [0, 0, 20]);
            second.HeaderDone? && second.ss.timestamp == 1020 && second.ss.timestampDelta == 20
            && ReadHeader(second.ss, 3, []) == HeaderDone(second.ss, 0)
  {}

  // ----- a sender that compresses

  /** What both sides remember of a chunk stream: its last message's header, and whether its timestamp was extended. */
  datatype Memory = Memory(timestamp: uint32, length: nat, typeId: byte, streamId: uint32, extended: bool)

  const NOTHING_YET: Memory := Memory(0, 0, 0, 0, false)

  function Recall(memory: map<nat, Memory>, csid: nat): Memory {
    if csid in memory then memory[csid] else NOTHING_YET
  }

  /** A message may begin with a chunk of this type if all the chunk leaves out is as it was. */
  predicate Allows(mem: Memory, fmt: nat, m: Message) {
    || fmt == 0
    || (fmt == 1 && m.messageStreamId == mem.streamId)
    || ((fmt == 2 || (fmt == 3 && (mem.extended || m.timestamp == mem.timestamp)))
        && m.messageStreamId == mem.streamId && m.messageLength == mem.length && m.messageTypeId == mem.typeId)
  }

  /** The timestamp field: absolute for Type 0, else the difference, around 2^32. */
  function Field(mem: Memory, fmt: nat, m: Message): uint32 {
    if fmt == 0 then m.timestamp else (m.timestamp - mem.timestamp) % 0x1_0000_0000
  }

  predicate Extends(mem: Memory, fmt: nat, m: Message) {
    if fmt == 3 then mem.extended else Field(mem, fmt, m) >= 0xFFFFFF
  }

  function Extension(mem: Memory, fmt: nat, m: Message): seq<byte> {
    if Extends(mem, fmt, m) then BigEndian4(Field(mem, fmt, m)) else []
  }

  function ShortHeader(mem: Memory, fmt: nat, m: Message): seq<byte> {
    var field := BigEndian3(Min(Field(mem, fmt, m), 0xFFFFFF));
    if fmt == 0 then field + BigEndian3(m.messageLength) + [m.messageTypeId] + LittleEndian4(m.messageStreamId)
    else if fmt == 1 then field + BigEndian3(m.messageLength) + [m.messageTypeId]
    else if fmt == 2 then field
    else []
  }

  function Remembered(mem: Memory, fmt: nat, m: Message): Memory {
    Memory(m.timestamp, m.messageLength, m.messageTypeId, m.messageStreamId, Extends(mem, fmt, m))
  }

  /** The bytes from payload byte `offset` on, in chunks of Type 3. */
  function Rest(mem: Memory, fmt: nat, m: Message, chunkSize: nat, offset: nat): seq<byte>
    requires chunkSize > 0
    decreases |m.payload| - offset
  {
    if offset >= |m.payload| then []
    else
      var n := Min(chunkSize, |m.payload| - offset);
      (BasicHeaderBytes(3, m.chunkStreamId) + Extension(mem, fmt, m) + m.payload[offset..offset + n])
      + Rest(mem, fmt, m, chunkSize, offset + n)
  }

  function FirstChunk(mem: Memory, fmt: nat, m: Message, chunkSize: nat): seq<byte>
    requires fmt <= 3
  {
    BasicHeaderBytes(fmt, m.chunkStreamId)
    + (ShortHeader(mem, fmt, m) + Extension(mem, fmt, m) + m.payload[..Min(chunkSize, |m.payload|)])
  }

  function Compressed(mem: Memory, fmt: nat, m: Message, chunkSize: nat): seq<byte>
    requires fmt <= 3 && chunkSize > 0
  {
    FirstChunk(mem, fmt, m, chunkSize) + Rest(mem, fmt, m, chunkSize, Min(chunkSize, |m.payload|))
  }

  /** A message and the type of chunk it begins with. */
  datatype Choice = Choice(fmt: nat, message: Message)

  function Remember(memory: map<nat, Memory>, c: Choice): map<nat, Memory> {
    memory[c.message.chunkStreamId := Remembered(Recall(memory, c.message.chunkStreamId), c.fmt, c.message)]
  }

  predicate Legal(memory: map<nat, Memory>, choices: seq<Choice>)
    decreases |choices|
  {
    choices != [] ==>
      var c := choices[0];
      && c.fmt <= 3 && Writable(c.message) && Allows(Recall(memory, c.message.chunkStreamId), c.fmt, c.message)
      && Legal(Remember(memory, c), choices[1..])
  }

  function SendChoices(memory: map<nat, Memory>, chunkSize: nat, choices: seq<Choice>): seq<byte>
    requires chunkSize > 0 && Legal(memory, choices)
    decreases |choices|
  {
    if choices == [] then []
    else
      var c := choices[0];
      Compressed(Recall(memory, c.message.chunkStreamId), c.fmt, c.message, chunkSize)
      + SendChoices(Remember(memory, c), SizeAnnounced(chunkSize, c.message), choices[1..])
  }

  function Messages(choices: seq<Choice>): seq<Message> {
    if choices == [] then [] else [choices[0].message] + Messages(choices[1..])
  }

  // ----- one chunk

  /** The chunk stream stands behind a whole message. */
  predicate StandsAt(ss: StreamState, mem: Memory) {
    ss == StreamState(mem.timestamp, ss.timestampDelta, mem.length, mem.typeId, mem.streamId, mem.extended, [], 0)
  }

  /** The chunk stream after `offset` payload bytes of `m`. */
  predicate Amid(ss: StreamState, m: Message, extended: bool, offset: nat) {
    offset <= |m.payload|
    && ss == StreamState(m.timestamp, ss.timestampDelta, m.messageLength, m.messageTypeId, m.messageStreamId, extended,
                         m.payload[..offset], |m.payload| - offset)
  }

  lemma Around(a: uint32, b: uint32)
    ensures (a + (b - a) % 0x1_0000_0000) % 0x1_0000_0000 == b
  {}

  lemma HeaderReads(ss: StreamState, mem: Memory, fmt: nat, m: Message, rest: seq<byte>)
    requires StandsAt(ss, mem) && fmt <= 3 && Writable(m) && Allows(mem, fmt, m)
    ensures var d := ShortHeader(mem, fmt, m) + Extension(mem, fmt, m);
            var h := ReadHeader(ss, fmt, d + rest);
            h.HeaderDone? && h.size == |d|
            && h.ss == StreamState(m.timestamp, h.ss.timestampDelta, m.messageLength, m.messageTypeId, m.messageStreamId,
                                   Extends(mem, fmt, m), [], 0)
  {
    hide ReadHeader;
    var delta := Field(mem, fmt, m);
    var ext := Extension(mem, fmt, m);
    Around(mem.timestamp, m.timestamp);
    if fmt == 0 {
      FirstHeaderReads(ss, m, rest);
      assert ShortHeader(mem, 0, m) == MessageHeaderBytes(m) && ext == ExtendedTimestampBytes(m.timestamp);
    } else if fmt == 1 {
      Type1HeaderReads(ss, delta, m.messageLength, m.messageTypeId, rest);
    } else if fmt == 2 {
      Type2HeaderReads(ss, delta, rest);
    } else {
      Type3HeaderReads(ss, delta, rest);
      assert [] + ext + rest == ext + rest;
      assert ext == [] ==> ext + rest == rest;
    }
  }

  lemma FirstChunkIsRead(ss: StreamState, mem: Memory, fmt: nat, m: Message, chunkSize: nat)
    requires StandsAt(ss, mem) && fmt <= 3 && Writable(m) && Allows(mem, fmt, m) && chunkSize > 0
    ensures var b := FirstChunk(mem, fmt, m, chunkSize);
            IsChunk(ss, chunkSize, m.chunkStreamId, b)
            && Amid(AfterChunk(ss, chunkSize, m.chunkStreamId, b), m, Extends(mem, fmt, m), Min(chunkSize, |m.payload|))
  {
    hide ReadHeader, ReadBasicHeader, BasicHeaderBytes, ShortHeader, Extension, Extends;
    var n := Min(chunkSize, |m.payload|);
    var header := ShortHeader(mem, fmt, m) + Extension(mem, fmt, m);
    var basic := BasicHeaderBytes(fmt, m.chunkStreamId);
    var b := FirstChunk(mem, fmt, m, chunkSize);
    var part := m.payload[..n];
    BasicHeaderReads(fmt, m.chunkStreamId, header + part);
    var d := b[|basic|..];
    assert d == header + part;
    HeaderReads(ss, mem, fmt, m, part);
    assert d[|header|..|header| + n] == part && [] + part == part;
  }

  lemma NextHeaderReads(ss: StreamState, mem: Memory, fmt: nat, m: Message, rest: seq<byte>)
    requires ss.hasExtendedTimestamp == Extends(mem, fmt, m) && ss.Continuing()
    ensures var ext := Extension(mem, fmt, m);
            ReadHeader(ss, 3, ext + rest) == HeaderDone(ss, |ext|)
  {
    hide ReadHeader, Field;
    Type3HeaderReads(ss, Field(mem, fmt, m), rest);
    assert [] + rest == rest;
  }

  lemma PayloadGoesOn(ss: StreamState, m: Message, extended: bool, chunkSize: nat, offset: nat, header: seq<byte>)
    requires Amid(ss, m, extended, offset) && 0 < offset < |m.payload| && chunkSize > 0
    ensures var n := Min(chunkSize, |m.payload| - offset);
            var r := ReadPayload(ss, chunkSize, header + m.payload[offset..offset + n], |header|);
            r.Whole? && r.size == |header| + n && Amid(r.ss, m, extended, offset + n)
  {
    var n := Min(chunkSize, |m.payload| - offset);
    var part := m.payload[offset..offset + n];
    assert (header + part)[|header|..|header| + n] == part;
    assert m.payload[..offset] + part == m.payload[..offset + n];
  }

  lemma NextChunkIsRead(ss: StreamState, mem: Memory, fmt: nat, m: Message, chunkSize: nat, offset: nat)
    requires Amid(ss, m, Extends(mem, fmt, m), offset) && Writable(m) && 0 < offset < |m.payload| && chunkSize > 0
    ensures var n := Min(chunkSize, |m.payload| - offset);
            var b := BasicHeaderBytes(3, m.chunkStreamId) + Extension(mem, fmt, m) + m.payload[offset..offset + n];
            IsChunk(ss, chunkSize, m.chunkStreamId, b)
            && Amid(AfterChunk(ss, chunkSize, m.chunkStreamId, b), m, Extends(mem, fmt, m), offset + n)
  {
    hide ReadHeader, ReadBasicHeader, BasicHeaderBytes, Extension, Extends, ReadPayload;
    var n := Min(chunkSize, |m.payload| - offset);
    var ext := Extension(mem, fmt, m);
    var basic := BasicHeaderBytes(3, m.chunkStreamId);
    var part := m.payload[offset..offset + n];
    var b := basic + ext + part;
    assert b == basic + (ext + part);
    BasicHeaderReads(3, m.chunkStreamId, ext + part);
    var d := b[|basic|..];
    assert d == ext + part;
    NextHeaderReads(ss, mem, fmt, m, part);
    PayloadGoesOn(ss, m, Extends(mem, fmt, m), chunkSize, offset, ext);
  }

  // ----- one message

  /** Between messages, with every chunk stream as the sender remembers it. */
  ghost predicate Knows(s: ParserState, memory: map<nat, Memory>) {
    s.Idle() && forall c: nat :: StandsAt(s.Stream(c), Recall(memory, c))
  }

  /** The same but for the chunk stream in the middle of a message. */
  ghost predicate KnowsOthers(s: ParserState, memory: map<nat, Memory>, csid: nat) {
    s.Idle() && forall c: nat :: c != csid ==> StandsAt(s.Stream(c), Recall(memory, c))
  }

  /** `d` is read as the messages `out` and then as `rest` would be from `s1`. */
  predicate ReadsTo(s: ParserState, d: seq<byte>, used: nat, out: seq<Message>, s1: ParserState, rest: seq<byte>)
    requires s.Valid() && s1.Valid()
  {
    var q := Run(s1, rest);
    Run(s, d) == RunResult(q.st, used + q.used, out + q.out)
  }

  lemma ReadsToTwice(s: ParserState, d: seq<byte>, u1: nat, out1: seq<Message>, s1: ParserState, d1: seq<byte>,
                     u2: nat, out2: seq<Message>, s2: ParserState, rest: seq<byte>)
    requires s.Valid() && s1.Valid() && s2.Valid()
    requires ReadsTo(s, d, u1, out1, s1, d1) && ReadsTo(s1, d1, u2, out2, s2, rest)
    ensures ReadsTo(s, d, u1 + u2, out1 + out2, s2, rest)
  {
    hide Run;
    assert out1 + (out2 + Run(s2, rest).out) == (out1 + out2) + Run(s2, rest).out;
  }

  lemma ChunkIsRead(s: ParserState, csid: nat, b: seq<byte>, rest: seq<byte>)
    requires s.Valid() && s.Idle() && IsChunk(s.Stream(csid), s.chunkSize, csid, b)
    ensures var (s1, out) := Store(s, csid, AfterChunk(s.Stream(csid), s.chunkSize, csid, b));
            s1.Valid() && ReadsTo(s, b + rest, |b|, out, s1, rest)
  {
    StepOnChunk(s, csid, b, rest);
    assert (b + rest)[|b|..] == rest;
  }

  /** The control a message exercises leaves what is remembered, and sets the size it announced. */
  lemma ControlKeepsKnowing(s: ParserState, memory: map<nat, Memory>, m: Message)
    requires Knows(s, memory)
    ensures Knows(Control(s, m), memory) && Control(s, m).chunkSize == SizeAnnounced(s.chunkSize, m)
  {}

  /** Reading one chunk of `m` that brings the payload to `to` bytes. */
  lemma OneOfCompressed(s: ParserState, memory: map<nat, Memory>, c: Choice, b: seq<byte>, to: nat, rest: seq<byte>)
    returns (s1: ParserState)
    requires var csid := c.message.chunkStreamId;
             && s.Valid() && KnowsOthers(s, memory, csid) && Writable(c.message)
             && IsChunk(s.Stream(csid), s.chunkSize, csid, b)
             && Amid(AfterChunk(s.Stream(csid), s.chunkSize, csid, b), c.message, Extends(Recall(memory, csid), c.fmt, c.message), to)
    ensures s1.Valid()
    ensures if to == |c.message.payload|
            then Knows(s1, Remember(memory, c)) && s1.chunkSize == SizeAnnounced(s.chunkSize, c.message)
                 && ReadsTo(s, b + rest, |b|, [c.message], s1, rest)
            else KnowsOthers(s1, memory, c.message.chunkStreamId) && s1.chunkSize == s.chunkSize
                 && Amid(s1.Stream(c.message.chunkStreamId), c.message,
                         Extends(Recall(memory, c.message.chunkStreamId), c.fmt, c.message), to)
                 && ReadsTo(s, b + rest, |b|, [], s1, rest)
  {
    hide ReadsTo, IsChunk, AfterChunk, Control, Extends;
    var m := c.message;
    var csid := m.chunkStreamId;
    ChunkIsRead(s, csid, b, rest);
    var ss := AfterChunk(s.Stream(csid), s.chunkSize, csid, b);
    s1 := Store(s, csid, ss).0;
    if to == |m.payload| {
      assert m.payload[..to] == m.payload;
      var stored := s.(streams := s.streams[csid := ss.(partialPayload := [])]);
      forall k: nat ensures StandsAt(stored.Stream(k), Recall(Remember(memory, c), k)) {
        if k != csid {
          assert stored.Stream(k) == s.Stream(k);
        }
      }
      ControlKeepsKnowing(stored, Remember(memory, c), m);
    }
  }

  lemma {:induction false} RestIsRead(s: ParserState, memory: map<nat, Memory>, c: Choice, offset: nat, rest: seq<byte>)
    returns (s1: ParserState)
    requires var m := c.message;
             && s.Valid() && KnowsOthers(s, memory, m.chunkStreamId) && Writable(m) && 0 < offset < |m.payload|
             && Amid(s.Stream(m.chunkStreamId), m, Extends(Recall(memory, m.chunkStreamId), c.fmt, m), offset)
    ensures s1.Valid() && Knows(s1, Remember(memory, c)) && s1.chunkSize == SizeAnnounced(s.chunkSize, c.message)
    ensures var d := Rest(Recall(memory, c.message.chunkStreamId), c.fmt, c.message, s.chunkSize, offset);
            ReadsTo(s, d + rest, |d|, [c.message], s1, rest)
    decreases |c.message.payload| - offset
  {
    hide ReadsTo, IsChunk, AfterChunk, Amid, Knows, KnowsOthers, Extends, Extension, BasicHeaderBytes;
    var m := c.message;
    var mem := Recall(memory, m.chunkStreamId);
    var n := Min(s.chunkSize, |m.payload| - offset);
    var b := BasicHeaderBytes(3, m.chunkStreamId) + Extension(mem, c.fmt, m) + m.payload[offset..offset + n];
    var later := Rest(mem, c.fmt, m, s.chunkSize, offset + n);
    NextChunkIsRead(s.Stream(m.chunkStreamId), mem, c.fmt, m, s.chunkSize, offset);
    assert (b + later) + rest == b + (later + rest);
    s1 := OneOfCompressed(s, memory, c, b, offset + n, later + rest);
    if offset + n == |m.payload| {
      assert later + rest == rest && b + later == b;
    } else {
      var mid := s1;
      s1 := RestIsRead(mid, memory, c, offset + n, rest);
      ReadsToTwice(s, b + (later + rest), |b|, [], mid, later + rest, |later|, [m], s1, rest);
      assert [] + [m] == [m];
    }
  }

  /** A message that begins with any type of chunk its predecessor allows is completed exactly, whatever follows it. */
  lemma CompressedIsRead(s: ParserState, memory: map<nat, Memory>, c: Choice, rest: seq<byte>)
    returns (s1: ParserState)
    requires s.Valid() && Knows(s, memory)
    requires c.fmt <= 3 && Writable(c.message) && Allows(Recall(memory, c.message.chunkStreamId), c.fmt, c.message)
    ensures s1.Valid() && Knows(s1, Remember(memory, c)) && s1.chunkSize == SizeAnnounced(s.chunkSize, c.message)
    ensures var d := Compressed(Recall(memory, c.message.chunkStreamId), c.fmt, c.message, s.chunkSize);
            ReadsTo(s, d + rest, |d|, [c.message], s1, rest)
  {
    hide ReadsTo, IsChunk, AfterChunk, Amid, StandsAt, Extends, FirstChunk;
    var m := c.message;
    var mem := Recall(memory, m.chunkStreamId);
    var n := Min(s.chunkSize, |m.payload|);
    var b := FirstChunk(mem, c.fmt, m, s.chunkSize);
    var later := Rest(mem, c.fmt, m, s.chunkSize, n);
    FirstChunkIsRead(s.Stream(m.chunkStreamId), mem, c.fmt, m, s.chunkSize);
    assert (b + later) + rest == b + (later + rest);
    s1 := OneOfCompressed(s, memory, c, b, n, later + rest);
    if n == |m.payload| {
      assert later + rest == rest && b + later == b;
    } else {
      var mid := s1;
      s1 := RestIsRead(mid, memory, c, n, rest);
      ReadsToTwice(s, b + (later + rest), |b|, [], mid, later + rest, |later|, [m], s1, rest);
      assert [] + [m] == [m];
    }
  }

  // ----- any sequence of messages

  /**
   Messages on any chunk streams, each begun with any chunk type that its predecessor on the stream allows, are
   completed exactly as sent, in order, with every byte consumed and the chunk size last announced.
   */
  lemma {:induction false} CompressedRoundTrip(s: ParserState, memory: map<nat, Memory>, choices: seq<Choice>)
    requires s.Valid() && Knows(s, memory) && Legal(memory, choices)
    ensures var d := SendChoices(memory, s.chunkSize, choices);
            var r := Run(s, d);
            r.out == Messages(choices) && r.used == |d| && r.st.chunkSize == SizeAfterAll(s.chunkSize, Messages(choices))
    decreases |choices|
  {
    hide Step, Knows, Compressed, Allows;
    if choices != [] {
      var c := choices[0];
      var rest := SendChoices(Remember(memory, c), SizeAnnounced(s.chunkSize, c.message), choices[1..]);
      var s1 := CompressedIsRead(s, memory, c, rest);
      CompressedRoundTrip(s1, Remember(memory, c), choices[1..]);
      assert Messages(choices)[1..] == Messages(choices[1..]);
    }
  }

  /** The same for any cutting into reads: exactly if no read ends right behind a bare header, up to timestamps in any case. */
  lemma CompressedInPieces(exact: bool, s: ParserState, memory: map<nat, Memory>, choices: seq<Choice>, pieces: seq<seq<byte>>)
    requires s.Valid() && Knows(s, memory) && Legal(memory, choices)
    requires Flatten(pieces) == SendChoices(memory, s.chunkSize, choices)
    requires exact ==> NoBareCut(s, [], pieces)
    ensures var f := Feed(s, [], pieces);
            f.residue == [] && AgreeMessages(exact, f.out, Messages(choices))
  {
    hide Run, Feed, SendChoices, NoBareCut, Agree;
    CompressedRoundTrip(s, memory, choices);
    FragmentationInvariance(exact, s, pieces);
  }

  // ----- the server's writer is one such sender

  lemma {:induction false} RestIsContinuations(mem: Memory, m: Message, chunkSize: nat, offset: nat)
    requires chunkSize > 0
    ensures Rest(mem, 0, m, chunkSize, offset) == Flatten(Continuations(m, chunkSize, offset))
    decreases |m.payload| - offset
  {
    hide BasicHeaderBytes, BigEndian4;
    if offset < |m.payload| {
      var n := Min(chunkSize, |m.payload| - offset);
      RestIsContinuations(mem, m, chunkSize, offset + n);
      FlattenFirst(ContinuationHeader(m) + m.payload[offset..offset + n], Continuations(m, chunkSize, offset + n), []);
    }
  }

  /** A sender that always chooses Type 0 writes what the server's writer does. */
  lemma UncompressedIsSerialized(mem: Memory, m: Message, chunkSize: nat)
    requires chunkSize > 0
    ensures Compressed(mem, 0, m, chunkSize) == Serialized(m, chunkSize)
  {
    hide BasicHeaderBytes, BigEndian3, BigEndian4, LittleEndian4, Rest, Continuations;
    var n := Min(chunkSize, |m.payload|);
    RestIsContinuations(mem, m, chunkSize, n);
    FlattenFirst(FirstHeader(m) + m.payload[..n], Continuations(m, chunkSize, n), []);
    assert ShortHeader(mem, 0, m) == MessageHeaderBytes(m) && Extension(mem, 0, m) == ExtendedTimestampBytes(m.timestamp);
    assert FirstChunk(mem, 0, m, chunkSize) == FirstHeader(m) + m.payload[..n];
  }

  lemma FreshParserKnowsNothing()
    ensures FRESH_PARSER.Valid() && Knows(FRESH_PARSER, map[])
  {}

  /** Headers byte by byte: the example of section 5.3.2.1, and chunk stream ids of two and three bytes with an extended timestamp. */
  lemma HeaderBytes(m: Message)
    ensures m.(payload := []) == Message(3, 1000, 32, 8, 12345, []) ==>
              FirstHeader(m) == [0x03, 0x00, 0x03, 0xE8, 0x00, 0x00, 0x20, 0x08, 0x39, 0x30, 0x00, 0x00] && ContinuationHeader(m) == [0xC3]
    ensures m.(payload := []) == Message(64, 0x0102_0304, 0, 9, 1, []) ==>
              FirstHeader(m) == [0x00, 0x00, 0xFF, 0xFF, 0xFF, 0, 0, 0, 9, 1, 0, 0, 0, 1, 2, 3, 4]
              && ContinuationHeader(m) == [0xC0, 0x00, 1, 2, 3, 4]
    ensures m.(payload := []) == Message(576, 0, 0, 9, 1, []) ==>
              FirstHeader(m) == [0x01, 0x00, 0x02, 0, 0, 0, 0, 0, 0, 9, 1, 0, 0, 0] && ContinuationHeader(m) == [0xC1, 0x00, 0x02]
  {}
}
