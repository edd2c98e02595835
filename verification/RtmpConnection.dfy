/** The read path of a connection: a fixed buffer, the bytes the parser left in it, and the next read behind them. */
module RtmpConnection {
  import opened Bytes
  import opened ChunkStream
  import opened ChunkFragmentation
  import opened ChunkParser
  import opened ChunkRoundTrip
  import opened ChunkWriter

  const READ_BUFFER_CAPACITY: nat := 8192

  lemma {:induction false} FeedAppend(s: ParserState, residue: seq<byte>, pieces: seq<seq<byte>>, piece: seq<byte>)
    requires s.Valid()
    ensures var f := Feed(s, residue, pieces);
            var r := Run(f.st, f.residue + piece);
            Feed(s, residue, pieces + [piece]) == FeedResult(r.st, (f.residue + piece)[r.used..], f.out + r.out)
    decreases |pieces|
  {
    hide Run;
    var more := pieces + [piece];
    if pieces == [] {
      assert more[1..] == [];
      var r := Run(s, residue + piece);
      assert r.out + [] == [] + r.out;
    } else {
      var d := residue + pieces[0];
      var p := Run(s, d);
      assert more[1..] == pieces[1..] + [piece] && more[0] == pieces[0];
      FeedAppend(p.st, d[p.used..], pieces[1..], piece);
      var f := Feed(p.st, d[p.used..], pieces[1..]);
      var r := Run(f.st, f.residue + piece);
      assert p.out + (f.out + r.out) == (p.out + f.out) + r.out;
    }
  }

  class Connection {
    const readBuffer: array<byte>
    const chunkParser: Parser
    var rtmpBufferSize: nat
    ghost var received: seq<seq<byte>>      // every read so far
    ghost var delivered: seq<Message>     // every message handed on so far

    ghost predicate Valid()
      reads this, readBuffer, chunkParser
    {
      && readBuffer.Length == READ_BUFFER_CAPACITY
      && chunkParser.Valid() && chunkParser.completedChunks == []
      && rtmpBufferSize <= 18
      && Feed(FRESH_PARSER, [], received) == FeedResult(chunkParser.State(), readBuffer[..rtmpBufferSize], delivered)
    }

    constructor ()
      ensures Valid() && fresh(readBuffer) && fresh(chunkParser)
      ensures received == [] && delivered == []
    {
      var parser := new Parser();
      readBuffer := new byte[READ_BUFFER_CAPACITY](_ => 0);
      chunkParser := parser;
      rtmpBufferSize := 0;
      received, delivered := [], [];
    }

    /**
     Where the next read goes and how much it may bring. The source closes the connection when
     no room is left; that never happens.
     */
    method StartReading() returns (offset: nat, maxRead: nat, overflow: bool)
      requires Valid()
      ensures offset == rtmpBufferSize && maxRead == READ_BUFFER_CAPACITY - offset
      ensures maxRead >= READ_BUFFER_CAPACITY - 18 && !overflow
    {
      offset := rtmpBufferSize;
      maxRead := READ_BUFFER_CAPACITY - offset;
      overflow := maxRead == 0;
    }

    /** A read of `bytes` arrives; returns the messages it completed. */
    method HandleRead(bytes: seq<byte>) returns (messages: seq<Message>)
      requires Valid() && 0 < |bytes| <= READ_BUFFER_CAPACITY - rtmpBufferSize
      modifies this, readBuffer, chunkParser
      ensures Valid()
      ensures received == old(received) + [bytes] && delivered == old(delivered) + messages
    {
      hide Run, Feed;
      ghost var residue := readBuffer[..rtmpBufferSize];
      CopyBehind(rtmpBufferSize, bytes);
      rtmpBufferSize := rtmpBufferSize + |bytes|;
      FeedAppend(FRESH_PARSER, [], received, bytes);
      messages := ProcessRTMPData();
      received, delivered := received + [bytes], delivered + messages;
    }

    /** `memcpy` of a read behind the first `offset` bytes of the buffer. */
    method CopyBehind(offset: nat, bytes: seq<byte>)
      requires offset + |bytes| <= readBuffer.Length
      modifies readBuffer
      ensures readBuffer[..offset + |bytes|] == old(readBuffer[..offset]) + bytes
    {
      var i := 0;
      while i < |bytes|
        invariant i <= |bytes|
        invariant readBuffer[..offset + i] == old(readBuffer[..offset]) + bytes[..i]
      {
        readBuffer[offset + i] := bytes[i];
        i := i + 1;
      }
    }

    method ProcessRTMPData() returns (messages: seq<Message>)
      requires readBuffer.Length == READ_BUFFER_CAPACITY && rtmpBufferSize <= READ_BUFFER_CAPACITY
      requires chunkParser.Valid() && chunkParser.completedChunks == []
      modifies this`rtmpBufferSize, readBuffer, chunkParser
      ensures var d := old(readBuffer[..rtmpBufferSize]);
              var r := Run(old(chunkParser.State()), d);
              && chunkParser.State() == r.st && messages == r.out && chunkParser.completedChunks == []
              && rtmpBufferSize <= 18 && readBuffer[..rtmpBufferSize] == d[r.used..]
    {
      ghost var d := readBuffer[..rtmpBufferSize];
      var bytesConsumed, chunksCompleted := chunkParser.Parse(readBuffer[..rtmpBufferSize]);
      var remainingBytes := rtmpBufferSize - bytesConsumed;
      if bytesConsumed > 0 && remainingBytes > 0 {
        MoveToFront(bytesConsumed, remainingBytes);
      }
      rtmpBufferSize := remainingBytes;
      assert readBuffer[..remainingBytes] == d[bytesConsumed..];
      messages := chunkParser.GetCompletedChunks();
      assert [] + messages == messages;
    }

    /** `memmove` of `count` bytes from offset `from` to the front of the buffer. */
    method MoveToFront(from: nat, count: nat)
      requires from + count <= readBuffer.Length
      modifies readBuffer
      ensures readBuffer[..count] == old(readBuffer[from..from + count])
    {
      var i := 0;
      while i < count
        invariant i <= count
        invariant forall k :: 0 <= k < i ==> readBuffer[k] == old(readBuffer[from + k])
        invariant forall k :: i <= k < readBuffer.Length ==> readBuffer[k] == old(readBuffer[k])
      {
        readBuffer[i] := readBuffer[from + i];
        i := i + 1;
      }
    }

    /**
     The peer's bytes are delivered as one call on all of them would deliver them. In particular,
     once the reads so far add up to what a writer sent, exactly the messages it wrote have been
     delivered and nothing is left in the buffer.
     */
    lemma DeliversWhatWasSent(ms: seq<Message>)
      requires Valid()
      requires forall m :: m in ms ==> Writable(m)
      requires Flatten(received) == SendAll(DEFAULT_CHUNK_SIZE, ms)
      ensures delivered == ms && rtmpBufferSize == 0
    {
      FreshParserIsClean();
      RoundTrip(FRESH_PARSER, ms, received);
    }
  }
}
