/** What the writer writes, the parser reads back: one chunk, one message, any sequence of messages, cut anyhow. */
module ChunkRoundTrip {
  import opened Bytes
  import opened ChunkStream
  import opened ChunkFragmentation
  import opened ChunkWriter

  // ----- one chunk

  /** `b` is one whole chunk of chunk stream `csid`, for a stream in state `ss`. */
  predicate IsChunk(ss: StreamState, chunkSize: nat, csid: nat, b: seq<byte>) {
    match ReadBasicHeader(b)
    case BasicIncomplete => false
    case Basic(fmt, c, n) =>
      c == csid && ReadChunk(ss, chunkSize, fmt, b[n..]).Whole? && n + ReadChunk(ss, chunkSize, fmt, b[n..]).size == |b|
  }

  function AfterChunk(ss: StreamState, chunkSize: nat, csid: nat, b: seq<byte>): StreamState
    requires IsChunk(ss, chunkSize, csid, b)
  {
    var h := ReadBasicHeader(b);
    ReadChunk(ss, chunkSize, h.fmt, b[h.size..]).ss
  }

  /** A whole chunk costs the parser one turn, whatever follows it. */
  lemma StepOnChunk(s: ParserState, csid: nat, b: seq<byte>, rest: seq<byte>)
    requires s.Valid() && s.Idle() && IsChunk(s.Stream(csid), s.chunkSize, csid, b)
    ensures b != []
    ensures var ss := AfterChunk(s.Stream(csid), s.chunkSize, csid, b);
            Step(s, b + rest) == StepResult(Store(s, csid, ss).0, |b|, Store(s, csid, ss).1, false)
  {
    StepExtends(s, b, rest);
  }

  lemma BasicHeaderReads(fmt: nat, csid: nat, rest: seq<byte>)
    requires fmt <= 3 && 2 <= csid <= MAX_CSID
    ensures ReadBasicHeader(BasicHeaderBytes(fmt, csid) + rest) == Basic(fmt, csid, |BasicHeaderBytes(fmt, csid)|)
  {}

  /** The chunk stream after `offset` payload bytes of `m` have been read. */
  function Reading(m: Message, offset: nat): StreamState
    requires offset <= |m.payload|
  {
    StreamState(m.timestamp, 0, m.messageLength, m.messageTypeId, m.messageStreamId,
                m.timestamp >= EXTENDED_TIMESTAMP_MARKER, m.payload[..offset], |m.payload| - offset)
  }

  lemma MessageHeaderReads(ss: StreamState, m: Message, rest: seq<byte>)
    requires Writable(m)
    ensures ApplyMessageHeader(ss, 0, MessageHeaderBytes(m) + rest)
         == StreamState(if m.timestamp >= EXTENDED_TIMESTAMP_MARKER then ss.timestamp else m.timestamp, 0,
                        m.messageLength, m.messageTypeId, m.messageStreamId,
                        m.timestamp >= EXTENDED_TIMESTAMP_MARKER, ss.partialPayload, ss.remainingBytes)
  {
    var d := MessageHeaderBytes(m) + rest;
    var ts := Min(m.timestamp, EXTENDED_TIMESTAMP_MARKER);
    BigEndian3Inverse(ts, d[3..]);
    assert d == BigEndian3(ts) + d[3..];
    BigEndian3Inverse(m.messageLength, d[6..]);
    assert d[3..] == BigEndian3(m.messageLength) + d[6..];
    LittleEndian4Inverse(m.messageStreamId, rest);
    assert d[7..] == LittleEndian4(m.messageStreamId) + rest;
  }

  lemma FirstHeaderReads(ss: StreamState, m: Message, rest: seq<byte>)
    requires Writable(m)
    ensures var e := ExtendedTimestampBytes(m.timestamp);
            ReadHeader(ss, 0, MessageHeaderBytes(m) + e + rest)
              == HeaderDone(Reading(m, 0).(partialPayload := ss.partialPayload, remainingBytes := ss.remainingBytes), 11 + |e|)
  {
    var e := ExtendedTimestampBytes(m.timestamp);
    assert MessageHeaderBytes(m) + e + rest == MessageHeaderBytes(m) + (e + rest);
    MessageHeaderReads(ss, m, e + rest);
    if e != [] {
      assert (MessageHeaderBytes(m) + e + rest)[11..] == e + rest;
      BigEndian4Inverse(m.timestamp, rest);
    }
  }

  lemma FirstChunkReads(ss: StreamState, m: Message, chunkSize: nat)
    requires Writable(m) && !ss.Continuing() && chunkSize > 0
    ensures var n := Min(chunkSize, |m.payload|);
            var b := FirstHeader(m) + m.payload[..n];
            && IsChunk(ss, chunkSize, m.chunkStreamId, b)
            && AfterChunk(ss, chunkSize, m.chunkStreamId, b) == Reading(m, n)
            && ReadBasicHeader(b).fmt == 0
  {
    hide ReadHeader, ReadBasicHeader, BasicHeaderBytes, MessageHeaderBytes, ExtendedTimestampBytes;
    var n := Min(chunkSize, |m.payload|);
    var header := MessageHeaderBytes(m) + ExtendedTimestampBytes(m.timestamp);
    var basic := BasicHeaderBytes(0, m.chunkStreamId);
    var b := FirstHeader(m) + m.payload[..n];
    assert b == basic + (header + m.payload[..n]);
    BasicHeaderReads(0, m.chunkStreamId, header + m.payload[..n]);
    var d := b[|basic|..];
    assert d == header + m.payload[..n];
    FirstHeaderReads(ss, m, m.payload[..n]);
    assert d[|header|..|header| + n] == m.payload[..n] && [] + m.payload[..n] == m.payload[..n];
  }

  lemma ContinuationHeaderReads(m: Message, offset: nat, rest: seq<byte>)
    requires offset < |m.payload|
    ensures var e := ExtendedTimestampBytes(m.timestamp);
            ReadHeader(Reading(m, offset), 3, e + rest) == HeaderDone(Reading(m, offset), |e|)
  {}

  lemma ReadingGoesOn(m: Message, chunkSize: nat, offset: nat, header: seq<byte>)
    requires 0 < offset < |m.payload| && chunkSize > 0
    ensures var n := Min(chunkSize, |m.payload| - offset);
            ReadPayload(Reading(m, offset), chunkSize, header + m.payload[offset..offset + n], |header|)
              == Whole(Reading(m, offset + n), |header| + n)
  {
    var n := Min(chunkSize, |m.payload| - offset);
    var part := m.payload[offset..offset + n];
    assert (header + part)[|header|..|header| + n] == part;
    assert m.payload[..offset] + part == m.payload[..offset + n];
  }

  lemma ContinuationReads(m: Message, chunkSize: nat, offset: nat)
    requires Writable(m) && 0 < offset < |m.payload| && chunkSize > 0
    ensures var n := Min(chunkSize, |m.payload| - offset);
            var b := ContinuationHeader(m) + m.payload[offset..offset + n];
            && IsChunk(Reading(m, offset), chunkSize, m.chunkStreamId, b)
            && AfterChunk(Reading(m, offset), chunkSize, m.chunkStreamId, b) == Reading(m, offset + n)
            && ReadBasicHeader(b).fmt == 3
  {
    hide ReadHeader, ReadBasicHeader, BasicHeaderBytes, ExtendedTimestampBytes, ReadPayload;
    var n := Min(chunkSize, |m.payload| - offset);
    var e := ExtendedTimestampBytes(m.timestamp);
    var basic := BasicHeaderBytes(3, m.chunkStreamId);
    var part := m.payload[offset..offset + n];
    var b := ContinuationHeader(m) + part;
    assert b == basic + (e + part);
    BasicHeaderReads(3, m.chunkStreamId, e + part);
    var d := b[|basic|..];
    assert d == e + part;
    ContinuationHeaderReads(m, offset, part);
    ReadingGoesOn(m, chunkSize, offset, e);
  }

  // ----- one message

  /** No message is under way on any chunk stream. */
  ghost predicate Clean(s: ParserState) {
    s.Idle() && forall k :: k in s.streams ==> !s.streams[k].Continuing()
  }

  /** The parser after it has read all of `m`. */
  function Done(s: ParserState, m: Message): ParserState {
    Control(s.(streams := s.streams[m.chunkStreamId := Reading(m, |m.payload|).(partialPayload := [])]), m)
  }

  /** `d` is read as the messages `out` and then as `rest` would be from `s1`; all its headers are of Type 0 or 3. */
  ghost predicate ReadsAs(s: ParserState, d: seq<byte>, used: nat, out: seq<Message>, s1: ParserState, rest: seq<byte>)
    requires s.Valid() && s1.Valid()
  {
    var q := Run(s1, rest);
    && Run(s, d) == RunResult(q.st, used + q.used, out + q.out)
    && (FullOrContinuation(s1, rest) ==> FullOrContinuation(s, d))
  }

  lemma FullWire(s: ParserState, b: seq<byte>, rest: seq<byte>)
    requires s.Valid() && s.Idle() && b != [] && Step(s, b + rest).used == |b| && !Step(s, b + rest).stop
    requires ReadBasicHeader(b).Basic? && (ReadBasicHeader(b).fmt == 0 || ReadBasicHeader(b).fmt == 3)
    requires FullOrContinuation(Step(s, b + rest).st, rest)
    ensures FullOrContinuation(s, b + rest)
  {
    BasicExtends(b, rest);
    assert (b + rest)[|b|..] == rest;
  }

  lemma ChunkThenRest(s: ParserState, csid: nat, b: seq<byte>, rest: seq<byte>)
    requires s.Valid() && s.Idle() && IsChunk(s.Stream(csid), s.chunkSize, csid, b)
    requires var fmt := ReadBasicHeader(b).fmt; fmt == 0 || fmt == 3
    ensures var (s1, out) := Store(s, csid, AfterChunk(s.Stream(csid), s.chunkSize, csid, b));
            s1.Valid() && ReadsAs(s, b + rest, |b|, out, s1, rest)
  {
    assert ReadBasicHeader(b).Basic?;
    hide IsChunk, AfterChunk, Store, Step;
    StepOnChunk(s, csid, b, rest);
    assert (b + rest)[|b|..] == rest;
    var s1 := Store(s, csid, AfterChunk(s.Stream(csid), s.chunkSize, csid, b)).0;
    if FullOrContinuation(s1, rest) {
      FullWire(s, b, rest);
    }
    hide FullOrContinuation;
  }

  lemma ReadsAsTwice(s: ParserState, d: seq<byte>, u1: nat, out1: seq<Message>, s1: ParserState, d1: seq<byte>,
                     u2: nat, out2: seq<Message>, s2: ParserState, rest: seq<byte>)
    requires s.Valid() && s1.Valid() && s2.Valid()
    requires ReadsAs(s, d, u1, out1, s1, d1) && ReadsAs(s1, d1, u2, out2, s2, rest)
    ensures ReadsAs(s, d, u1 + u2, out1 + out2, s2, rest)
  {
    hide Run, FullOrContinuation;
    assert out1 + (out2 + Run(s2, rest).out) == (out1 + out2) + Run(s2, rest).out;
  }

  lemma DoneIsValid(s: ParserState, m: Message)
    requires s.Valid() && s.Idle()
    ensures Done(s, m).Valid() && Done(s, m).Idle() && Done(s, m).chunkSize == SizeAnnounced(s.chunkSize, m)
  {}

  lemma DoneIsClean(s: ParserState, m: Message)
    requires s.Valid() && s.Idle()
    requires forall k :: k in s.streams && k != m.chunkStreamId ==> !s.streams[k].Continuing()
    ensures Clean(Done(s, m))
  {}

  lemma CompletedIsMessage(m: Message)
    requires Writable(m)
    ensures Completed(m.chunkStreamId, Reading(m, |m.payload|)) == m
  {
    assert m.payload[..|m.payload|] == m.payload;
  }

  lemma FlattenFirst(chunk: seq<byte>, chunks: seq<seq<byte>>, rest: seq<byte>)
    ensures Flatten([chunk] + chunks) + rest == chunk + (Flatten(chunks) + rest)
  {
    assert ([chunk] + chunks)[1..] == chunks;
  }

  /** Reading one chunk of `m` that brings the payload from `from` to `to` bytes. */
  lemma OneOfMessage(s: ParserState, m: Message, b: seq<byte>, to: nat, rest: seq<byte>)
    requires s.Valid() && s.Idle() && Writable(m) && to <= |m.payload|
    requires IsChunk(s.Stream(m.chunkStreamId), s.chunkSize, m.chunkStreamId, b)
    requires AfterChunk(s.Stream(m.chunkStreamId), s.chunkSize, m.chunkStreamId, b) == Reading(m, to)
    requires var fmt := ReadBasicHeader(b).fmt; fmt == 0 || fmt == 3
    ensures var s1 := s.(streams := s.streams[m.chunkStreamId := Reading(m, to)]);
            if to == |m.payload| then Done(s, m).Valid() && ReadsAs(s, b + rest, |b|, [m], Done(s, m), rest)
            else s1.Valid() && ReadsAs(s, b + rest, |b|, [], s1, rest)
  {
    hide ReadsAs;
    ChunkThenRest(s, m.chunkStreamId, b, rest);
    DoneIsValid(s, m);
    CompletedIsMessage(m);
  }

  lemma NextContinuation(m: Message, chunkSize: nat, offset: nat)
    requires offset < |m.payload| && chunkSize > 0
    ensures var n := Min(chunkSize, |m.payload| - offset);
            Continuations(m, chunkSize, offset)
              == [ContinuationHeader(m) + m.payload[offset..offset + n]] + Continuations(m, chunkSize, offset + n)
    ensures Continuations(m, chunkSize, |m.payload|) == []
  {
    hide ContinuationHeader;
  }

  lemma {:induction false} RunContinuations(s: ParserState, m: Message, offset: nat, rest: seq<byte>)
    requires s.Valid() && s.Idle() && Writable(m) && 0 < offset < |m.payload|
    requires m.chunkStreamId in s.streams && s.streams[m.chunkStreamId] == Reading(m, offset)
    ensures Done(s, m).Valid()
    ensures var d := Flatten(Continuations(m, s.chunkSize, offset));
            ReadsAs(s, d + rest, |d|, [m], Done(s, m), rest)
    decreases |m.payload| - offset
  {
    hide ReadsAs, IsChunk, AfterChunk, ReadBasicHeader, Done, Reading, Continuations, ContinuationHeader;
    NextContinuation(m, s.chunkSize, offset);
    DoneIsValid(s, m);
    var n := Min(s.chunkSize, |m.payload| - offset);
    var b := ContinuationHeader(m) + m.payload[offset..offset + n];
    var later := Flatten(Continuations(m, s.chunkSize, offset + n));
    ContinuationReads(m, s.chunkSize, offset);
    FlattenFirst(b, Continuations(m, s.chunkSize, offset + n), rest);
    FlattenFirst(b, Continuations(m, s.chunkSize, offset + n), []);
    OneOfMessage(s, m, b, offset + n, later + rest);
    if offset + n == |m.payload| {
      assert later + rest == rest;
    } else {
      var s1 := s.(streams := s.streams[m.chunkStreamId := Reading(m, offset + n)]);
      RunContinuations(s1, m, offset + n, rest);
      DoneForgets(s, m, offset + n);
      ReadsAsTwice(s, b + (later + rest), |b|, [], s1, later + rest, |later|, [m], Done(s, m), rest);
      assert [] + [m] == [m];
    }
  }

  lemma DoneForgets(s: ParserState, m: Message, offset: nat)
    requires offset <= |m.payload|
    ensures Done(s.(streams := s.streams[m.chunkStreamId := Reading(m, offset)]), m) == Done(s, m)
  {
    var done := Reading(m, |m.payload|).(partialPayload := []);
    assert s.streams[m.chunkStreamId := Reading(m, offset)][m.chunkStreamId := done] == s.streams[m.chunkStreamId := done];
  }

  /** A message serialized with the parser's chunk size is read back, whatever follows it. */
  lemma RunMessage(s: ParserState, m: Message, rest: seq<byte>)
    requires s.Valid() && s.Idle() && !s.Stream(m.chunkStreamId).Continuing() && Writable(m)
    ensures Done(s, m).Valid() && Done(s, m).Idle() && Done(s, m).chunkSize == SizeAnnounced(s.chunkSize, m)
    ensures Clean(s) ==> Clean(Done(s, m))
    ensures var d := Serialized(m, s.chunkSize);
            ReadsAs(s, d + rest, |d|, [m], Done(s, m), rest)
  {
    hide ReadsAs, IsChunk, AfterChunk, ReadBasicHeader, Done;
    DoneIsValid(s, m);
    if Clean(s) {
      DoneIsClean(s, m);
    }
    var n := Min(s.chunkSize, |m.payload|);
    var b := FirstHeader(m) + m.payload[..n];
    var later := Flatten(Continuations(m, s.chunkSize, n));
    FirstChunkReads(s.Stream(m.chunkStreamId), m, s.chunkSize);
    FlattenFirst(b, Continuations(m, s.chunkSize, n), rest);
    FlattenFirst(b, Continuations(m, s.chunkSize, n), []);
    OneOfMessage(s, m, b, n, later + rest);
    if n == |m.payload| {
      assert later + rest == rest;
    } else {
      var s1 := s.(streams := s.streams[m.chunkStreamId := Reading(m, n)]);
      RunContinuations(s1, m, n, rest);
      DoneForgets(s, m, n);
      ReadsAsTwice(s, b + (later + rest), |b|, [], s1, later + rest, |later|, [m], Done(s, m), rest);
      assert [] + [m] == [m];
    }
  }

  // ----- any sequence of messages

  lemma {:induction false} RunMessages(s: ParserState, ms: seq<Message>)
    requires s.Valid() && Clean(s)
    requires forall m :: m in ms ==> Writable(m)
    ensures var d := SendAll(s.chunkSize, ms);
            var r := Run(s, d);
            && r.out == ms && r.used == |d|
            && r.st.chunkSize == SizeAfterAll(s.chunkSize, ms) && Clean(r.st)
            && FullOrContinuation(s, d)
    decreases |ms|
  {
    hide Step, Done;
    if ms != [] {
      var rest := SendAll(SizeAnnounced(s.chunkSize, ms[0]), ms[1..]);
      RunMessage(s, ms[0], rest);
      RunMessages(Done(s, ms[0]), ms[1..]);
      assert [ms[0]] + ms[1..] == ms;
    }
  }

  /**
   Round trip. A fresh parser, or any parser between messages, reads the writer's bytes back as
   exactly the messages written, consumes every byte and ends with the writer's chunk size,
   however the bytes are cut into reads.
   */
  lemma RoundTrip(s: ParserState, ms: seq<Message>, pieces: seq<seq<byte>>)
    requires s.Valid() && Clean(s)
    requires forall m :: m in ms ==> Writable(m)
    requires Flatten(pieces) == SendAll(s.chunkSize, ms)
    ensures var f := Feed(s, [], pieces);
            f.out == ms && f.residue == [] && Clean(f.st) && f.st.chunkSize == SizeAfterAll(s.chunkSize, ms)
  {
    hide Run, FullOrContinuation, Feed;
    RunMessages(s, ms);
    FragmentationOfFullChunks(s, pieces);
  }

  lemma FreshParserIsClean()
    ensures FRESH_PARSER.Valid() && Clean(FRESH_PARSER) && FRESH_PARSER.chunkSize == 128
  {}
}
