/** The incremental parser as a class: each call of `Parse` is one `Run` of the chunk stream. */
module ChunkParser {
  import opened Bytes
  import opened ChunkStream
  import opened ChunkTermination

  class Parser {
    var chunkSize: nat
    var chunkStreams: map<nat, StreamState>
    var completedChunks: seq<Message>
    var pendingChunkCsid: nat
    var pendingChunkBytes: nat

    ghost function State(): ParserState
      reads this
    {
      ParserState(chunkSize, chunkStreams, pendingChunkCsid, pendingChunkBytes)
    }

    ghost predicate Valid()
      reads this
    {
      State().Valid()
    }

    constructor ()
      ensures State() == FRESH_PARSER && completedChunks == [] && Valid()
    {
      chunkSize := DEFAULT_CHUNK_SIZE;
      chunkStreams := map[];
      completedChunks := [];
      pendingChunkCsid := 0;
      pendingChunkBytes := 0;
    }

    method Parse(data: seq<byte>) returns (bytesConsumed: nat, chunksCompleted: nat)
      requires Valid() && !Stalls(State(), data)
      modifies this
      ensures var r := Run(old(State()), data);
              && State() == r.st && bytesConsumed == r.used && chunksCompleted == |r.out|
              && completedChunks == old(completedChunks) + r.out
      ensures Valid() && |data| - bytesConsumed <= 18
    {
      hide Run, Step, Store, Stalls;
      ghost var s0 := State();
      ghost var out: seq<Message> := [];
      ghost var whole := Run(s0, data);
      BoundedResidue(s0, data);
      bytesConsumed, chunksCompleted := 0, 0;
      var current := data;
      while bytesConsumed < |data|
        invariant bytesConsumed <= |data| && Valid()
        invariant completedChunks == old(completedChunks) + out && chunksCompleted == |out|
        invariant current == data[bytesConsumed..] && !Stalls(State(), current)
        invariant whole == Resumed(bytesConsumed, out, Run(State(), current))
      {
        OneTurn(whole, bytesConsumed, out, State(), current);
        NoStallAhead(State(), current);
        ghost var p := Step(State(), current);
        var before := |completedChunks|;
        var n, stop := 0, false;
        if pendingChunkBytes > 0 && pendingChunkCsid != 0 {
          n := ReadPendingBytes(current);
        } else {
          n, stop := ReadOneChunk(current);
        }
        bytesConsumed := bytesConsumed + n;
        chunksCompleted := chunksCompleted + (|completedChunks| - before);
        assert old(completedChunks) + (out + p.out) == old(completedChunks) + out + p.out;
        out := out + p.out;
        if stop {
          return;
        }
        current := current[n..];
      }
      RunOnNothing(State());
    }

    /** The part of a half-read chunk that has now arrived. */
    method ReadPendingBytes(current: seq<byte>) returns (consumed: nat)
      requires Valid() && pendingChunkBytes > 0 && current != [] && !Stalls(State(), current)
      modifies this
      ensures var p := Step(old(State()), current);
              State() == p.st && consumed == p.used && !p.stop && completedChunks == old(completedChunks) + p.out
    {
      var csid := pendingChunkCsid;
      var state := chunkStreams[csid];
      CastIsHarmless(State(), current);
      var bytesToRead := Min(pendingChunkBytes, |current| % TWO_TO_THE_32);
      state := state.(partialPayload := state.partialPayload + current[..bytesToRead]);
      state := state.(remainingBytes := state.remainingBytes - bytesToRead);
      chunkStreams := chunkStreams[csid := state];
      pendingChunkBytes := pendingChunkBytes - bytesToRead;
      consumed := bytesToRead;
      if pendingChunkBytes == 0 {
        pendingChunkCsid := 0;
        assert chunkStreams[csid := state.(partialPayload := [])] == old(chunkStreams)[csid := state.(partialPayload := [])];
        FinishMessage(csid);
      }
    }

    /** Completes the message of a chunk stream whose last byte has arrived. */
    method FinishMessage(csid: nat)
      requires csid in chunkStreams
      modifies this
      ensures var (s, out) := Store(old(State()), csid, old(chunkStreams[csid]));
              State() == s && completedChunks == old(completedChunks) + out
    {
      var state := chunkStreams[csid];
      if state.remainingBytes == 0 {
        var chunk := Message(csid, state.timestamp, state.messageLength, state.messageTypeId,
                             state.messageStreamId, state.partialPayload);
        chunkStreams := chunkStreams[csid := state.(partialPayload := [])];
        ProcessProtocolControlMessage(chunk);
        completedChunks := completedChunks + [chunk];
      } else {
        assert chunkStreams[csid := state] == chunkStreams;
      }
    }

    /** One chunk from its basic header on; `stop` when more bytes are needed. */
    method ReadOneChunk(current: seq<byte>) returns (consumed: nat, stop: bool)
      requires Valid() && pendingChunkBytes == 0 && current != []
      modifies this
      ensures var p := Step(old(State()), current);
              && State() == p.st && consumed == p.used && stop == p.stop
              && completedChunks == old(completedChunks) + p.out
    {
      hide ReadHeader, ReadPayload, ReadBasicHeader, Store;
      consumed, stop := 0, true;
      var ok, fmt, csid, basicHeaderSize := ParseBasicHeader(current);
      if !ok {
        return;
      }
      // The state is created here, so a Type 3 chunk always finds one.
      if csid !in chunkStreams {
        chunkStreams := chunkStreams[csid := FRESH_STREAM];
      }
      var d := current[basicHeaderSize..];
      var headerOk, headerSize := ParseHeader(fmt, d, csid);
      if !headerOk {
        assert chunkStreams == old(chunkStreams)[csid := chunkStreams[csid]];
        return;
      }
      var payloadSize;
      payloadSize, stop := ReadPayloadBytes(csid, d, headerSize);
      assert chunkStreams == old(chunkStreams)[csid := chunkStreams[csid]];
      if stop {
        consumed := if payloadSize > 0 then |current| else 0;
      } else {
        consumed := basicHeaderSize + headerSize + payloadSize;
        StoreOverwrites(old(State()), csid, chunkStreams[csid], chunkStreams[csid]);
        FinishMessage(csid);
      }
    }

    /** The payload of a chunk, or what has arrived of it; `stop` when it is not all there. */
    method ReadPayloadBytes(csid: nat, d: seq<byte>, headerSize: nat) returns (payloadSize: nat, stop: bool)
      requires csid in chunkStreams && headerSize <= |d|
      modifies this
      ensures chunkSize == old(chunkSize) && completedChunks == old(completedChunks)
      ensures var r := ReadPayload(StartMessage(old(chunkStreams[csid])), chunkSize, d, headerSize);
              && chunkStreams == old(chunkStreams)[csid := r.ss]
              && stop == !r.Whole?
              && (r.Whole? ==> headerSize + payloadSize == r.size)
              && (r.Short? ==> payloadSize > 0 && pendingChunkCsid == csid && pendingChunkBytes == r.pending)
              && (r.NeedMore? ==> payloadSize == 0)
              && (!r.Short? ==> pendingChunkCsid == old(pendingChunkCsid) && pendingChunkBytes == old(pendingChunkBytes))
    {
      var state := chunkStreams[csid];
      if state.partialPayload == [] && state.remainingBytes == 0 {
        state := state.(remainingBytes := state.messageLength);
      }
      var payloadToRead := Min(chunkSize, state.remainingBytes);
      var availablePayload := |d| - headerSize;
      payloadSize, stop := payloadToRead, availablePayload < payloadToRead;
      if stop {
        payloadSize := availablePayload;
        if availablePayload > 0 {
          pendingChunkCsid := csid;
          pendingChunkBytes := payloadToRead - availablePayload;
        }
      }
      assert d[headerSize..headerSize + availablePayload] == d[headerSize..];
      state := state.(partialPayload := state.partialPayload + d[headerSize..headerSize + payloadSize],
                      remainingBytes := state.remainingBytes - payloadSize);
      chunkStreams := chunkStreams[csid := state];
      assert forall partial: seq<byte> :: partial + [] == partial;
    }

    method ParseBasicHeader(data: seq<byte>) returns (ok: bool, fmt: nat, csid: nat, headerSize: nat)
      ensures ok == ReadBasicHeader(data).Basic?
      ensures ok ==> Basic(fmt, csid, headerSize) == ReadBasicHeader(data)
    {
      ok, fmt, csid, headerSize := false, 0, 0, 0;
      if |data| < 1 {
        return;
      }
      fmt := data[0] / 64;
      var csidField := data[0] % 64;
      if csidField == 0 {
        if |data| < 2 {
          return;
        }
        csid, headerSize := data[1] as int + 64, 2;
      } else if csidField == 1 {
        if |data| < 3 {
          return;
        }
        csid, headerSize := data[2] as int * 256 + data[1] as int + 64, 3;
      } else {
        csid, headerSize := csidField, 1;
      }
      ok := true;
    }

    /** The message header and, when the state calls for it, the extended timestamp. */
    method ParseHeader(fmt: nat, d: seq<byte>, csid: nat) returns (ok: bool, size: nat)
      requires fmt <= 3 && csid in chunkStreams
      modifies `chunkStreams
      ensures var h := ReadHeader(old(chunkStreams[csid]), fmt, d);
              && ok == h.HeaderDone? && (ok ==> size == h.size)
              && chunkStreams == old(chunkStreams)[csid := h.ss]
    {
      ok, size := ParseMessageHeader(fmt, d, csid);
      if !ok {
        assert chunkStreams == old(chunkStreams)[csid := old(chunkStreams[csid])];
        return;
      }
      var state := chunkStreams[csid];
      if state.hasExtendedTimestamp {
        if |d| < size + 4 {
          ok := false;
          return;
        }
        var extendedTimestamp := FromBigEndian4(d[size..]);
        if fmt == 0 {
          state := state.(timestamp := extendedTimestamp);
        } else if fmt == 3 {
          var isContinuationChunk := state.partialPayload != [] || state.remainingBytes > 0;
          if !isContinuationChunk {
            state := state.(timestampDelta := extendedTimestamp);
            state := state.(timestamp := AddTimestamp(state.timestamp, extendedTimestamp));
          }
        } else {
          state := state.(timestampDelta := extendedTimestamp);
          state := state.(timestamp := AddTimestamp(state.timestamp, extendedTimestamp));
        }
        chunkStreams := chunkStreams[csid := state];
        size := size + 4;
      }
      assert chunkStreams == old(chunkStreams)[csid := state];
    }

    method ParseMessageHeader(fmt: nat, data: seq<byte>, csid: nat) returns (ok: bool, headerSize: nat)
      requires fmt <= 3 && csid in chunkStreams
      modifies `chunkStreams
      ensures ok == (MessageHeaderSize(fmt) <= |data|)
      ensures ok ==> headerSize == MessageHeaderSize(fmt)
                     && chunkStreams == old(chunkStreams)[csid := ApplyMessageHeader(old(chunkStreams[csid]), fmt, data)]
      ensures !ok ==> chunkStreams == old(chunkStreams)
    {
      ok, headerSize := false, 0;
      var state := chunkStreams[csid];
      if fmt == 0 {
        if |data| < 11 {
          return;
        }
        var timestamp := FromBigEndian3(data);
        state := state.(hasExtendedTimestamp := timestamp == EXTENDED_TIMESTAMP_MARKER);
        if !state.hasExtendedTimestamp {
          state := state.(timestamp := timestamp);
        }
        state := state.(timestampDelta := 0);
        state := state.(messageLength := FromBigEndian3(data[3..]));
        state := state.(messageTypeId := data[6]);
        state := state.(messageStreamId := FromLittleEndian4(data[7..]));
        headerSize := 11;
      } else if fmt == 1 {
        if |data| < 7 {
          return;
        }
        state := ApplyDelta(state, FromBigEndian3(data));
        state := state.(messageLength := FromBigEndian3(data[3..]));
        state := state.(messageTypeId := data[6]);
        headerSize := 7;
      } else if fmt == 2 {
        if |data| < 3 {
          return;
        }
        state := ApplyDelta(state, FromBigEndian3(data));
        headerSize := 3;
      }
      chunkStreams := chunkStreams[csid := state];
      ok := true;
    }

    method ProcessProtocolControlMessage(chunk: Message)
      modifies `chunkSize, `chunkStreams
      ensures State() == Control(old(State()), chunk)
    {
      if chunk.messageStreamId != 0 {
        return;
      }
      if chunk.messageTypeId == MSG_TYPE_SET_CHUNK_SIZE {
        if |chunk.payload| >= 4 {
          var newSize := FromBigEndian4([chunk.payload[0] % 0x80] + chunk.payload[1..4]);
          TopBitIgnored(chunk.payload);
          SetChunkSize(newSize);
        }
      } else if chunk.messageTypeId == MSG_TYPE_ABORT {
        if |chunk.payload| >= 4 {
          AbortChunkStream(FromBigEndian4(chunk.payload));
        }
      }
    }

    method SetChunkSize(size: nat)
      modifies `chunkSize
      ensures chunkSize == Clamp(size)
    {
      var s := size;
      if s < MIN_CHUNK_SIZE {
        s := MIN_CHUNK_SIZE;
      } else if s > MAX_CHUNK_SIZE {
        s := MAX_CHUNK_SIZE;
      }
      chunkSize := s;
    }

    method AbortChunkStream(chunkStreamId: nat)
      modifies `chunkStreams
      ensures State() == Abort(old(State()), chunkStreamId)
      ensures old(Valid()) ==> (Valid() <==> pendingChunkBytes == 0 || chunkStreamId != pendingChunkCsid)
    {
      if Valid() {
        AbortKeepsValid(State(), chunkStreamId);
      }
      if chunkStreamId in chunkStreams {
        chunkStreams := chunkStreams[chunkStreamId := chunkStreams[chunkStreamId].ResetPartial()];
      }
    }

    method GetCompletedChunks() returns (result: seq<Message>)
      modifies `completedChunks
      ensures result == old(completedChunks) && completedChunks == []
    {
      result := completedChunks;
      completedChunks := [];
    }
  }

  /** A Type 1 or 2 timestamp delta; the marker defers it to the extended timestamp. */
  function ApplyDelta(state: StreamState, delta: nat): StreamState
    requires delta < 0x100_0000
  {
    if delta == EXTENDED_TIMESTAMP_MARKER then state.(hasExtendedTimestamp := true)
    else state.(hasExtendedTimestamp := false, timestampDelta := delta, timestamp := AddTimestamp(state.timestamp, delta))
  }

  lemma TopBitIgnored(payload: seq<byte>)
    requires |payload| >= 4
    ensures FromBigEndian4([payload[0] % 0x80] + payload[1..4]) == FromBigEndian4(payload) % 0x8000_0000
  {}

  ghost function Resumed(used: nat, out: seq<Message>, r: RunResult): RunResult {
    RunResult(r.st, used + r.used, out + r.out)
  }

  lemma RunOnNothing(s: ParserState)
    requires s.Valid()
    ensures Run(s, []) == RunResult(s, 0, [])
  {}

  /** One turn of the loop, seen from the whole run. */
  lemma OneTurn(whole: RunResult, used: nat, out: seq<Message>, s: ParserState, rest: seq<byte>)
    requires s.Valid() && rest != [] && whole == Resumed(used, out, Run(s, rest))
    ensures var p := Step(s, rest);
            whole == if p.stop then RunResult(p.st, used + p.used, out + p.out)
                     else Resumed(used + p.used, out + p.out, Run(p.st, rest[p.used..]))
  {
    hide Step;
    var p := Step(s, rest);
    if !p.stop {
      var q := Run(p.st, rest[p.used..]);
      assert Run(s, rest) == RunResult(q.st, p.used + q.used, p.out + q.out);
      assert out + (p.out + q.out) == (out + p.out) + q.out;
    }
  }
}
