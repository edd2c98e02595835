/**
 The chunk stream of the Adobe RTMP specification 1.0, section 5.3, as the parser of the
 server reads it: one chunk at a time, with per-chunk-stream state, a chunk that may be only
 half received, and a chunk size that control messages change in band.

 This module gives the parser's meaning as functions on values; `ChunkParser` is the class
 that computes them.
 */
module ChunkStream {
  import opened Bytes

  const MIN_CHUNK_SIZE: nat := 128
  const MAX_CHUNK_SIZE: nat := 65536
  const DEFAULT_CHUNK_SIZE: nat := 128
  const EXTENDED_TIMESTAMP_MARKER: nat := 0xFFFFFF
  const MSG_TYPE_SET_CHUNK_SIZE: byte := 1
  const MSG_TYPE_ABORT: byte := 2
  const MAX_CSID: nat := 65599

  datatype StreamState = StreamState(
    timestamp: uint32,
    timestampDelta: uint32,
    messageLength: nat,
    messageTypeId: byte,
    messageStreamId: uint32,
    hasExtendedTimestamp: bool,
    partialPayload: seq<byte>,
    remainingBytes: nat)
  {
    /** In the middle of a message. */
    predicate Continuing() {
      partialPayload != [] || remainingBytes > 0
    }

    function ResetPartial(): StreamState {
      this.(partialPayload := [], remainingBytes := 0)
    }
  }

  const FRESH_STREAM: StreamState := StreamState(0, 0, 0, 0, 0, false, [], 0)

  /** A completed message; the source's `ChunkData` with `isComplete` set. */
  datatype Message = Message(
    chunkStreamId: nat,
    timestamp: uint32,
    messageLength: nat,
    messageTypeId: byte,
    messageStreamId: uint32,
    payload: seq<byte>)

  datatype ParserState = ParserState(
    chunkSize: nat,
    streams: map<nat, StreamState>,
    pendingCsid: nat,
    pendingBytes: nat)
  {
    /** The state of a chunk stream, created on first use. */
    function Stream(csid: nat): StreamState {
      if csid in streams then streams[csid] else FRESH_STREAM
    }

    /** No chunk is half read. */
    predicate Idle() {
      pendingBytes == 0
    }

    predicate Valid() {
      && MIN_CHUNK_SIZE <= chunkSize <= MAX_CHUNK_SIZE
      && (pendingBytes == 0 <==> pendingCsid == 0)
      && (pendingBytes > 0 ==>
            pendingCsid in streams && pendingBytes <= streams[pendingCsid].remainingBytes)
    }
  }

  const FRESH_PARSER: ParserState := ParserState(DEFAULT_CHUNK_SIZE, map[], 0, 0)

  // ----- headers

  datatype BasicHeader = BasicIncomplete | Basic(fmt: nat, csid: nat, size: nat)

  /** Section 5.3.1.1: one, two or three bytes. */
  function ReadBasicHeader(d: seq<byte>): (h: BasicHeader)
    ensures h.Basic? ==> h.fmt <= 3 && 2 <= h.csid <= MAX_CSID && 1 <= h.size <= 3 && h.size <= |d|
    ensures h.BasicIncomplete? ==> |d| <= 2
  {
    if |d| < 1 then BasicIncomplete
    else
      var fmt := d[0] / 64;
      var field := d[0] % 64;
      if field == 0 then
        if |d| < 2 then BasicIncomplete else Basic(fmt, d[1] as int + 64, 2)
      else if field == 1 then
        if |d| < 3 then BasicIncomplete else Basic(fmt, d[2] as int * 256 + d[1] as int + 64, 3)
      else Basic(fmt, field, 1)
  }

  /** What reading a header did to the chunk stream's state, and the header's size once it is all there. */
  datatype HeaderRead = HeaderIncomplete(ss: StreamState) | HeaderDone(ss: StreamState, size: nat)

  function MessageHeaderSize(fmt: nat): (n: nat)
    ensures n <= 11
  {
    if fmt == 0 then 11 else if fmt == 1 then 7 else if fmt == 2 then 3 else 0
  }

  function AddTimestamp(timestamp: uint32, delta: uint32): uint32 {
    (timestamp + delta) % TWO_TO_THE_32
  }

  /** Section 5.3.1.2: the message header of a chunk of type `fmt`, without the extended timestamp. */
  function ApplyMessageHeader(ss: StreamState, fmt: nat, d: seq<byte>): StreamState
    requires MessageHeaderSize(fmt) <= |d|
  {
    if fmt == 0 then
      var ts := FromBigEndian3(d);
      StreamState(if ts == EXTENDED_TIMESTAMP_MARKER then ss.timestamp else ts, 0,
                  FromBigEndian3(d[3..]), d[6], FromLittleEndian4(d[7..]),
                  ts == EXTENDED_TIMESTAMP_MARKER, ss.partialPayload, ss.remainingBytes)
    else if fmt == 1 || fmt == 2 then
      var delta := FromBigEndian3(d);
      var ss1 :=
        if delta == EXTENDED_TIMESTAMP_MARKER then ss.(hasExtendedTimestamp := true)
        else ss.(hasExtendedTimestamp := false, timestampDelta := delta,
                 timestamp := AddTimestamp(ss.timestamp, delta));
      if fmt == 1 then ss1.(messageLength := FromBigEndian3(d[3..]), messageTypeId := d[6]) else ss1
    else ss
  }

  /** Section 5.3.1.3, as the source reads it: a Type 3 chunk applies it only when it starts a message. */
  function ApplyExtendedTimestamp(ss: StreamState, fmt: nat, ext: uint32): StreamState {
    if fmt == 0 then ss.(timestamp := ext)
    else if fmt == 3 && ss.Continuing() then ss
    else ss.(timestampDelta := ext, timestamp := AddTimestamp(ss.timestamp, ext))
  }

  function ReadHeader(ss: StreamState, fmt: nat, d: seq<byte>): (h: HeaderRead)
    ensures h.HeaderDone? ==> h.size <= |d|
    ensures h.HeaderIncomplete? ==> |d| <= 14
    ensures h.HeaderDone? ==> h.size <= 15
    ensures h.ss.partialPayload == ss.partialPayload && h.ss.remainingBytes == ss.remainingBytes
  {
    var n := MessageHeaderSize(fmt);
    if |d| < n then HeaderIncomplete(ss)
    else
      var ss1 := ApplyMessageHeader(ss, fmt, d);
      if !ss1.hasExtendedTimestamp then HeaderDone(ss1, n)
      else if |d| < n + 4 then HeaderIncomplete(ss1)
      else HeaderDone(ApplyExtendedTimestamp(ss1, fmt, FromBigEndian4(d[n..])), n + 4)
  }

  // ----- one chunk

  /** The three ways an attempt to read one chunk ends, with the chunk stream's new state. */
  datatype ChunkRead =
    | NeedMore(ss: StreamState)                // nothing consumed
    | Short(ss: StreamState, pending: nat)     // everything consumed, `pending` payload bytes of the chunk still to come
    | Whole(ss: StreamState, size: nat)        // the chunk consumed; `size` counts from the end of the basic header

  function StartMessage(ss: StreamState): StreamState {
    if ss.Continuing() then ss else ss.(remainingBytes := ss.messageLength)
  }

  function Append(ss: StreamState, data: seq<byte>): StreamState
    requires |data| <= ss.remainingBytes
  {
    ss.(partialPayload := ss.partialPayload + data, remainingBytes := ss.remainingBytes - |data|)
  }

  function ReadPayload(ss: StreamState, chunkSize: nat, d: seq<byte>, headerSize: nat): ChunkRead
    requires headerSize <= |d|
  {
    var toRead := Min(chunkSize, ss.remainingBytes);
    var available := |d| - headerSize;
    if available >= toRead then Whole(Append(ss, d[headerSize..headerSize + toRead]), headerSize + toRead)
    else if available > 0 then Short(Append(ss, d[headerSize..]), toRead - available)
    else NeedMore(ss)
  }

  function ReadChunk(ss: StreamState, chunkSize: nat, fmt: nat, d: seq<byte>): ChunkRead {
    match ReadHeader(ss, fmt, d)
    case HeaderIncomplete(ss1) => NeedMore(ss1)
    case HeaderDone(ss1, n) => ReadPayload(StartMessage(ss1), chunkSize, d, n)
  }

  // ----- control messages, section 5.4

  function Clamp(size: nat): (r: nat)
    ensures MIN_CHUNK_SIZE <= r <= MAX_CHUNK_SIZE
  {
    if size < MIN_CHUNK_SIZE then MIN_CHUNK_SIZE else if size > MAX_CHUNK_SIZE then MAX_CHUNK_SIZE else size
  }

  function Abort(s: ParserState, csid: nat): ParserState {
    if csid in s.streams then s.(streams := s.streams[csid := s.streams[csid].ResetPartial()]) else s
  }

  predicate SetsChunkSize(m: Message) {
    m.messageStreamId == 0 && m.messageTypeId == MSG_TYPE_SET_CHUNK_SIZE && |m.payload| >= 4
  }

  predicate Aborts(m: Message) {
    m.messageStreamId == 0 && m.messageTypeId == MSG_TYPE_ABORT && |m.payload| >= 4
  }

  /** The top bit of an announced chunk size is ignored. */
  function Control(s: ParserState, m: Message): ParserState {
    if SetsChunkSize(m) then s.(chunkSize := Clamp(FromBigEndian4(m.payload) % 0x8000_0000))
    else if Aborts(m) then Abort(s, FromBigEndian4(m.payload))
    else s
  }

  function Completed(csid: nat, ss: StreamState): Message {
    Message(csid, ss.timestamp, ss.messageLength, ss.messageTypeId, ss.messageStreamId, ss.partialPayload)
  }

  /** Puts back the state of a chunk stream whose chunk has been read, completing its message if that was the last chunk. */
  function Store(s: ParserState, csid: nat, ss: StreamState): (ParserState, seq<Message>) {
    if ss.remainingBytes == 0 then
      var m := Completed(csid, ss);
      (Control(s.(streams := s.streams[csid := ss.(partialPayload := [])]), m), [m])
    else
      (s.(streams := s.streams[csid := ss]), [])
  }

  /** Storing overwrites what an earlier turn stored for the same chunk stream. */
  lemma StoreOverwrites(s: ParserState, csid: nat, ss: StreamState, done: StreamState)
    ensures Store(s.(streams := s.streams[csid := ss]), csid, done) == Store(s, csid, done)
  {
    assert s.streams[csid := ss][csid := done] == s.streams[csid := done];
    var cleared := done.(partialPayload := []);
    assert s.streams[csid := ss][csid := cleared] == s.streams[csid := cleared];
  }

  // ----- the parser

  /** One turn of the parse loop: new state, bytes consumed, messages completed, and whether the loop ends here. */
  datatype StepResult = StepResult(st: ParserState, used: nat, out: seq<Message>, stop: bool)

  function StepPending(s: ParserState, d: seq<byte>): (r: StepResult)
    requires s.Valid() && !s.Idle() && d != []
    ensures r.st.Valid() && 0 < r.used <= |d| && !r.stop
  {
    var n := Min(s.pendingBytes, |d|);
    var ss := Append(s.streams[s.pendingCsid], d[..n]);
    if n < s.pendingBytes then
      StepResult(s.(streams := s.streams[s.pendingCsid := ss], pendingBytes := s.pendingBytes - n), n, [], false)
    else
      var (s1, out) := Store(s.(pendingCsid := 0, pendingBytes := 0), s.pendingCsid, ss);
      StepResult(s1, n, out, false)
  }

  /** The parser's state after a chunk of `length` presented bytes, `headerSize` of them basic header, was read as `r`. */
  function Settle(s: ParserState, csid: nat, headerSize: nat, length: nat, r: ChunkRead): StepResult {
    match r
    case NeedMore(ss) => StepResult(s.(streams := s.streams[csid := ss]), 0, [], true)
    case Short(ss, pending) =>
      StepResult(s.(streams := s.streams[csid := ss], pendingCsid := csid, pendingBytes := pending), length, [], true)
    case Whole(ss, size) =>
      var (s1, out) := Store(s, csid, ss);
      StepResult(s1, headerSize + size, out, false)
  }

  function StepChunk(s: ParserState, d: seq<byte>): (r: StepResult)
    requires s.Valid() && s.Idle() && d != []
    ensures r.st.Valid() && r.used <= |d| && (!r.stop ==> 0 < r.used)
    ensures r.stop ==> |d| <= 18 || r.used == |d|
  {
    match ReadBasicHeader(d)
    case BasicIncomplete => StepResult(s, 0, [], true)
    case Basic(fmt, csid, n) => Settle(s, csid, n, |d|, ReadChunk(s.Stream(csid), s.chunkSize, fmt, d[n..]))
  }

  function Step(s: ParserState, d: seq<byte>): (r: StepResult)
    requires s.Valid() && d != []
    ensures r.st.Valid() && r.used <= |d| && (!r.stop ==> 0 < r.used)
    ensures r.stop ==> s.Idle() && (r.used == 0 || r.used == |d|)
  {
    if s.Idle() then StepChunk(s, d) else StepPending(s, d)
  }

  datatype RunResult = RunResult(st: ParserState, used: nat, out: seq<Message>)

  /** A whole call of the parser on the bytes `d`. */
  function Run(s: ParserState, d: seq<byte>): (r: RunResult)
    requires s.Valid()
    ensures r.st.Valid() && r.used <= |d|
    decreases |d|
  {
    if d == [] then RunResult(s, 0, [])
    else
      var p := Step(s, d);
      if p.stop then RunResult(p.st, p.used, p.out)
      else
        var q := Run(p.st, d[p.used..]);
        RunResult(q.st, p.used + q.used, p.out + q.out)
  }

  /** The bytes a call of the parser leaves unconsumed. */
  function Residue(s: ParserState, d: seq<byte>): seq<byte>
    requires s.Valid()
  {
    d[Run(s, d).used..]
  }

  /**
   Whatever the input and however a previous call ended, at most 18 bytes stay unconsumed:
   one maximal header (3 + 11 + 4) with no payload byte behind it.
   */
  lemma {:induction false} BoundedResidue(s: ParserState, d: seq<byte>)
    requires s.Valid()
    ensures |Residue(s, d)| <= 18
    decreases |d|
  {
    if d != [] {
      var p := Step(s, d);
      if !p.stop {
        BoundedResidue(p.st, d[p.used..]);
        assert d[p.used..][Run(p.st, d[p.used..]).used..] == Residue(s, d);
      }
    }
  }

  /** The bound is reached, so the read path must keep room for it. */
  lemma ResidueBoundIsTight()
    ensures exists d :: |Residue(FRESH_PARSER, d)| == 18
  {
    var d: seq<byte> := [1, 0, 1] + BigEndian3(EXTENDED_TIMESTAMP_MARKER) + BigEndian3(1) + [9] + LittleEndian4(1) + BigEndian4(0);
    assert ReadBasicHeader(d) == Basic(0, 320, 3);
    assert ReadHeader(FRESH_STREAM, 0, d[3..]).HeaderDone?;
    assert Step(FRESH_PARSER, d).stop;
    assert |Residue(FRESH_PARSER, d)| == 18;
  }

  /**
   The public abort call keeps the parser consistent if and only if it does not name the
   chunk stream whose chunk is half read; otherwise the next read would take more bytes off
   `remainingBytes` than it holds.
   */
  lemma AbortKeepsValid(s: ParserState, csid: nat)
    requires s.Valid()
    ensures Abort(s, csid).Valid() <==> s.Idle() || csid != s.pendingCsid
  {}

  /** A message of two bytes, half of it received. */
  const HALF_A_CHUNK: seq<byte> := [3, 0, 0, 0, 0, 0, 2, 9, 0, 0, 0, 0, 7]

  /** Aborting it leaves the parser waiting for a byte that the stream has no room for. */
  lemma AbortBreaksHalfReadChunk()
    ensures var s := Run(FRESH_PARSER, HALF_A_CHUNK).st;
            s.Valid() && s.pendingCsid == 3 && s.pendingBytes == 1 && !Abort(s, 3).Valid()
  {
    var d := HALF_A_CHUNK;
    assert ReadBasicHeader(d) == Basic(0, 3, 1);
    var ss := StreamState(0, 0, 2, 9, 0, false, [], 0);
    assert d[1..] == [0, 0, 0, 0, 0, 2, 9, 0, 0, 0, 0, 7];
    assert d[1..][3..] == [0, 0, 2, 9, 0, 0, 0, 0, 7] && d[1..][7..] == [0, 0, 0, 0, 7] && d[1..][11..] == [7];
    assert ReadHeader(FRESH_STREAM, 0, d[1..]) == HeaderDone(ss, 11);
    assert ReadChunk(FRESH_STREAM, 128, 0, d[1..]) == Short(ss.(partialPayload := [7], remainingBytes := 1), 1);
    var s := Step(FRESH_PARSER, d).st;
    assert Run(FRESH_PARSER, d).st == s;
    AbortKeepsValid(s, 3);
  }
}
