/**
 Type 1 and 2 headers presented twice: exactly when that is harmless. The parser applies a
 timestamp delta when it reads the header, and reads the header again when no payload byte
 had arrived with it.
 */
module ChunkDeltas {
  import opened Bytes
  import opened ChunkStream
  import opened ChunkFragmentation

  lemma BareDeltaMovesTwice(ss: StreamState, chunkSize: nat, fmt: nat, d: seq<byte>, e: seq<byte>)
    requires (fmt == 1 || fmt == 2) && BareDelta(fmt, d)
    requires ReadChunk(ss, chunkSize, fmt, d).NeedMore?
    ensures ReadChunk(ReadChunk(ss, chunkSize, fmt, d).ss, chunkSize, fmt, d + e).ss.timestamp
            != ReadChunk(ss, chunkSize, fmt, d + e).ss.timestamp
  {
    hide ReadChunk, ReadHeader;
    var ss1 := ReadChunk(ss, chunkSize, fmt, d).ss;
    BareHeaderAdds(ss, fmt, d);
    BareHeaderAdds(ss1, fmt, d);
    HeaderExtends(ss, fmt, d, e);
    HeaderExtends(ss1, fmt, d, e);
    ChunkTimestamp(ss, chunkSize, fmt, d);
    ChunkTimestamp(ss, chunkSize, fmt, d + e);
    ChunkTimestamp(ss1, chunkSize, fmt, d + e);
  }

  /** The delta a bare header carries, in its own field or the extended one. */
  function BareDeltaOf(fmt: nat, d: seq<byte>): (delta: uint32)
    requires (fmt == 1 || fmt == 2) && BareDelta(fmt, d)
    ensures delta != 0
  {
    if FromBigEndian3(d) == EXTENDED_TIMESTAMP_MARKER then FromBigEndian4(d[MessageHeaderSize(fmt)..]) else FromBigEndian3(d)
  }

  lemma BareHeaderAdds(ss: StreamState, fmt: nat, d: seq<byte>)
    requires (fmt == 1 || fmt == 2) && BareDelta(fmt, d)
    ensures var h := ReadHeader(ss, fmt, d);
            h.HeaderDone? && h.ss.timestamp == AddTimestamp(ss.timestamp, BareDeltaOf(fmt, d))
  {}

  lemma ChunkTimestamp(ss: StreamState, chunkSize: nat, fmt: nat, d: seq<byte>)
    ensures ReadChunk(ss, chunkSize, fmt, d).ss.timestamp == ReadHeader(ss, fmt, d).ss.timestamp
  {
    hide ReadHeader;
  }

  /** However a chunk was read, the timestamp it left shows in the parser's state. */
  lemma SettleKeepsTimestamp(s: ParserState, csid: nat, n: nat, length: nat, r: ChunkRead)
    ensures var st := Settle(s, csid, n, length, r).st;
            csid in st.streams && st.streams[csid].timestamp == r.ss.timestamp
  {}

  /**
   A turn that consumed nothing can be repeated on more bytes with the same result if and only
   if what it was given is not a bare Type 1 or 2 header.
   */
  lemma RepeatedExactlyUnlessBare(s: ParserState, d: seq<byte>, e: seq<byte>)
    requires s.Valid() && d != [] && Step(s, d).stop && Step(s, d).used < |d|
    ensures Step(Step(s, d).st, d + e) == Step(s, d + e) <==> !BareDeltaHeader(d)
  {
    if !BareDeltaHeader(d) {
      StepRepresents(true, s, d, e);
      ExactlyEqual(Step(Step(s, d).st, d + e).st, Step(s, d + e).st);
    } else {
      var h := ReadBasicHeader(d);
      BasicExtends(d, e);
      var ss := s.Stream(h.csid);
      var r := ReadChunk(ss, s.chunkSize, h.fmt, d[h.size..]);
      assert r.NeedMore?;
      BareDeltaMovesTwice(ss, s.chunkSize, h.fmt, d[h.size..], e);
      SettleKeepsTimestamp(Step(s, d).st, h.csid, h.size, |d + e|, ReadChunk(r.ss, s.chunkSize, h.fmt, (d + e)[h.size..]));
      SettleKeepsTimestamp(s, h.csid, h.size, |d + e|, ReadChunk(ss, s.chunkSize, h.fmt, (d + e)[h.size..]));
    }
  }

  // ----- an instance: delta 5, one payload byte, cut behind the header

  const HEADER: seq<byte> := [0x43, 0, 0, 5, 0, 0, 1, 9]
  const CHUNK: seq<byte> := [0x43, 0, 0, 5, 0, 0, 1, 9, 7]

  /** The state before, or after, the header alone has been read. */
  function Before(timestamp: uint32, again: bool): StreamState {
    if again then StreamState(timestamp, 5, 1, 9, 0, false, [], 1) else FRESH_STREAM.(timestamp := timestamp)
  }

  lemma ReadDelta(timestamp: uint32, again: bool)
    requires timestamp < 10
    ensures ReadChunk(Before(timestamp, again), 128, 1, CHUNK[1..])
         == Whole(StreamState(timestamp + 5, 5, 1, 9, 0, false, [7], 0), 8)
    ensures ReadChunk(Before(timestamp, again), 128, 1, HEADER[1..]) == NeedMore(Before(timestamp + 5, true))
  {
    assert CHUNK[1..] == [0, 0, 5, 0, 0, 1, 9, 7] && HEADER[1..] == [0, 0, 5, 0, 0, 1, 9];
    assert CHUNK[1..][3..] == [0, 0, 1, 9, 7] && HEADER[1..][3..] == [0, 0, 1, 9];
    assert CHUNK[1..][7..8] == [7];
  }

  function Parser(timestamp: uint32, again: bool): ParserState {
    ParserState(128, map[3 := Before(timestamp, again)], 0, 0)
  }

  lemma StepDelta(timestamp: uint32, again: bool)
    requires timestamp < 10
    ensures var p := Step(Parser(timestamp, again), CHUNK);
            p.used == 9 && !p.stop && p.out == [Message(3, timestamp + 5, 1, 9, 0, [7])]
    ensures Step(Parser(timestamp, again), HEADER) == StepResult(Parser(timestamp + 5, true), 0, [], true)
  {
    ReadDelta(timestamp, again);
    assert ReadBasicHeader(CHUNK) == Basic(1, 3, 1) && ReadBasicHeader(HEADER) == Basic(1, 3, 1);
  }

  lemma RunDelta(timestamp: uint32, again: bool)
    requires timestamp < 10
    ensures Run(Parser(timestamp, again), CHUNK).out == [Message(3, timestamp + 5, 1, 9, 0, [7])]
    ensures Run(Parser(timestamp, again), HEADER) == RunResult(Parser(timestamp + 5, true), 0, [])
  {
    hide Step;
    StepDelta(timestamp, again);
    assert CHUNK[9..] == [];
  }

  /** One read too early, and a Type 1 delta of 5 counts twice. */
  lemma DeltaCanCountTwice()
    ensures HEADER + [7] == CHUNK
    ensures Run(Parser(0, false), CHUNK).out == [Message(3, 5, 1, 9, 0, [7])]
    ensures Feed(Parser(0, false), [], [HEADER, [7]]).out == [Message(3, 10, 1, 9, 0, [7])]
  {
    hide Step, Run;
    RunDelta(0, false);
    RunDelta(5, true);
    var pieces: seq<seq<byte>> := [HEADER, [7]];
    assert pieces[1..] == [[7]] && pieces[1..][1..] == [] && [] + HEADER == HEADER && HEADER[0..] == HEADER;
    var last := pieces[1..];
    var p := Run(Parser(5, true), CHUNK);
    assert HEADER + last[0] == CHUNK;
    assert Feed(p.st, CHUNK[p.used..], last[1..]).out == [];
    var q := Feed(Parser(5, true), HEADER, last);
    assert q.out == Run(Parser(5, true), CHUNK).out + [];
    assert Feed(Parser(0, false), [], pieces).out == [] + q.out;
  }
}
