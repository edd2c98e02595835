/** What a control message does once it has arrived among the others (sections 5.4.1 and 5.4.2 of the Adobe RTMP specification 1.0). */
module ControlMessages {
  import opened Bytes
  import opened ChunkStream
  import opened ChunkFragmentation
  import opened ChunkWriter
  import opened ChunkRoundTrip

  /** The 32-bit number a payload begins with. */
  predicate Names(m: Message, n: uint32) {
    |m.payload| >= 4 && m.payload[..4] == BigEndian4(n)
  }

  lemma NamedNumber(m: Message, n: uint32)
    requires Names(m, n)
    ensures FromBigEndian4(m.payload) == n
  {
    hide BigEndian4, FromBigEndian4;
    BigEndian4Inverse(n, m.payload[4..]);
    assert m.payload == BigEndian4(n) + m.payload[4..];
  }

  /**
   Set Chunk Size, whatever number it carries: the low 31 bits are the new size if that lies in 128..65536, else the
   nearer bound is. Every other message leaves the size alone.
   */
  lemma AnnouncedSizeIsTaken(s: ParserState, m: Message, n: uint32)
    requires s.Valid() && Clean(s) && Writable(m) && Names(m, n)
    ensures var size := Run(s, Serialized(m, s.chunkSize)).st.chunkSize;
            if m.messageTypeId == 1 && m.messageStreamId == 0 then
              size == (if n % 0x8000_0000 < 128 then 128 else if n % 0x8000_0000 > 65536 then 65536 else n % 0x8000_0000)
            else size == s.chunkSize
  {
    hide Serialized, Run, FromBigEndian4;
    NamedNumber(m, n);
    RunsToDone(s, m);
  }

  lemma RunsToDone(s: ParserState, m: Message)
    requires s.Valid() && Clean(s) && Writable(m)
    ensures Done(s, m).Valid() && Run(s, Serialized(m, s.chunkSize)).st == Done(s, m)
  {
    hide Serialized;
    RunMessage(s, m, []);
    assert Serialized(m, s.chunkSize) + [] == Serialized(m, s.chunkSize);
  }

  // ----- abort

  /** The parser in the middle of a message: between its chunks, with `offset` of its bytes read. */
  function Halfway(s: ParserState, m: Message, offset: nat): ParserState
    requires offset <= |m.payload|
  {
    s.(streams := s.streams[m.chunkStreamId := Reading(m, offset)])
  }

  /** The bytes of a message up to and from a chunk boundary. */
  function FirstPart(m: Message, chunkSize: nat, k: nat): seq<byte>
    requires chunkSize > 0 && k <= |ChunksOf(m, chunkSize)|
  {
    Flatten(ChunksOf(m, chunkSize)[..k])
  }

  function LastPart(m: Message, chunkSize: nat, k: nat): seq<byte>
    requires chunkSize > 0 && k <= |ChunksOf(m, chunkSize)|
  {
    Flatten(ChunksOf(m, chunkSize)[k..])
  }

  /** The payload bytes of `k` full chunks. */
  function FullChunks(chunkSize: nat, k: nat): nat {
    if k == 0 then 0 else FullChunks(chunkSize, k - 1) + chunkSize
  }

  lemma {:induction false} ContinuationsFrom(m: Message, chunkSize: nat, offset: nat, k: nat)
    requires chunkSize > 0 && k < |Continuations(m, chunkSize, offset)|
    ensures offset + FullChunks(chunkSize, k) < |m.payload|
    ensures Continuations(m, chunkSize, offset)[k..] == Continuations(m, chunkSize, offset + FullChunks(chunkSize, k))
    decreases k
  {
    if k > 0 {
      var n := Min(chunkSize, |m.payload| - offset);
      var later := Continuations(m, chunkSize, offset + n);
      assert Continuations(m, chunkSize, offset)[1..] == later;
      assert n == chunkSize;
      ContinuationsFrom(m, chunkSize, offset + n, k - 1);
      assert Continuations(m, chunkSize, offset)[k..] == later[k - 1..];
    }
  }

  lemma LaterChunks(m: Message, chunkSize: nat)
    requires chunkSize > 0 && |ChunksOf(m, chunkSize)| > 1
    ensures chunkSize < |m.payload| && ChunksOf(m, chunkSize)[1..] == Continuations(m, chunkSize, chunkSize)
  {
    hide FirstHeader, ContinuationHeader;
  }

  /** All but the first chunk are as many payload bytes as the chunk size further on. */
  lemma ChunksFrom(m: Message, chunkSize: nat, k: nat)
    requires chunkSize > 0 && 0 < k < |ChunksOf(m, chunkSize)|
    ensures FullChunks(chunkSize, k) < |m.payload|
    ensures ChunksOf(m, chunkSize)[k..] == Continuations(m, chunkSize, FullChunks(chunkSize, k))
  {
    LaterChunks(m, chunkSize);
    hide ChunksOf, Continuations;
    var chunks := ChunksOf(m, chunkSize);
    ContinuationsFrom(m, chunkSize, chunkSize, k - 1);
    assert chunks[k..] == chunks[1..][k - 1..];
  }

  lemma LastPartIs(m: Message, chunkSize: nat, k: nat)
    requires chunkSize > 0 && 0 < k < |ChunksOf(m, chunkSize)|
    ensures FullChunks(chunkSize, k) < |m.payload|
    ensures LastPart(m, chunkSize, k) == Flatten(Continuations(m, chunkSize, FullChunks(chunkSize, k)))
  {
    hide ChunksOf, Continuations;
    ChunksFrom(m, chunkSize, k);
  }

  lemma PartOfChunks(chunks: seq<seq<byte>>, k: nat, rest: seq<byte>)
    requires k < |chunks|
    ensures Flatten(chunks[..k + 1]) + rest == Flatten(chunks[..k]) + (chunks[k] + rest)
    ensures |Flatten(chunks[..k + 1])| == |Flatten(chunks[..k])| + |chunks[k]|
  {
    assert chunks[..k + 1] == chunks[..k] + [chunks[k]];
    FlattenAppend(chunks[..k], [chunks[k]]);
    FlattenOne(chunks[k]);
  }

  lemma FlattenOne(chunk: seq<byte>)
    ensures Flatten([chunk]) == chunk
  {
    assert [chunk][1..] == [];
  }

  lemma HalfwayTwice(s: ParserState, m: Message, a: nat, b: nat)
    requires a <= |m.payload| && b <= |m.payload|
    ensures Halfway(Halfway(s, m, a), m, b) == Halfway(s, m, b)
  {
    assert s.streams[m.chunkStreamId := Reading(m, a)][m.chunkStreamId := Reading(m, b)] == s.streams[m.chunkStreamId := Reading(m, b)];
  }

  lemma FirstChunkOfMany(s: ParserState, m: Message, rest: seq<byte>)
    requires s.Valid() && s.Idle() && !s.Stream(m.chunkStreamId).Continuing() && Writable(m) && s.chunkSize < |m.payload|
    ensures var h := Halfway(s, m, s.chunkSize); var d := FirstPart(m, s.chunkSize, 1);
            h.Valid() && ReadsAs(s, d + rest, |d|, [], h, rest)
  {
    hide ReadsAs, IsChunk, AfterChunk, ReadBasicHeader;
    FirstChunkReads(s.Stream(m.chunkStreamId), m, s.chunkSize);
    var chunks := ChunksOf(m, s.chunkSize);
    FlattenOne(chunks[0]);
    assert chunks[..1] == [chunks[0]];
    OneOfMessage(s, m, chunks[0], s.chunkSize, rest);
  }

  lemma NextChunkOfMany(h: ParserState, m: Message, offset: nat, rest: seq<byte>)
    requires h.Valid() && h.Idle() && Writable(m) && 0 < offset && offset + h.chunkSize < |m.payload|
    requires h.Stream(m.chunkStreamId) == Reading(m, offset)
    ensures var b := Continuations(m, h.chunkSize, offset)[0]; var h1 := Halfway(h, m, offset + h.chunkSize);
            h1.Valid() && ReadsAs(h, b + rest, |b|, [], h1, rest)
  {
    hide ReadsAs, IsChunk, AfterChunk, ReadBasicHeader;
    ContinuationReads(m, h.chunkSize, offset);
    OneOfMessage(h, m, Continuations(m, h.chunkSize, offset)[0], offset + h.chunkSize, rest);
  }

  /** All chunks of a message but the last few leave the parser in the middle of it. */
  lemma {:induction false} FirstPartIsRead(s: ParserState, m: Message, k: nat, rest: seq<byte>)
    requires s.Valid() && s.Idle() && !s.Stream(m.chunkStreamId).Continuing() && Writable(m)
    requires 0 < k < |ChunksOf(m, s.chunkSize)|
    ensures FullChunks(s.chunkSize, k) < |m.payload|
    ensures var h := Halfway(s, m, FullChunks(s.chunkSize, k)); var d := FirstPart(m, s.chunkSize, k);
            h.Valid() && ReadsAs(s, d + rest, |d|, [], h, rest)
    decreases k
  {
    hide ReadsAs, Continuations;
    var size := s.chunkSize;
    var chunks := ChunksOf(m, size);
    LastPartIs(m, size, k);
    if k == 1 {
      FirstChunkOfMany(s, m, rest);
    } else {
      var b := chunks[k - 1];
      FirstPartIsRead(s, m, k - 1, b + rest);
      ChunkAt(m, size, k - 1);
      var h := Halfway(s, m, FullChunks(size, k - 1));
      NextChunkOfMany(h, m, FullChunks(size, k - 1), rest);
      HalfwayTwice(s, m, FullChunks(size, k - 1), FullChunks(size, k));
      PartOfChunks(chunks, k - 1, rest);
      var none: seq<Message> := [];
      assert none + none == none;
      ReadsAsTwice(s, FirstPart(m, size, k) + rest, |FirstPart(m, size, k - 1)|, none, h, b + rest,
                   |b|, none, Halfway(s, m, FullChunks(size, k)), rest);
    }
  }

  lemma ChunkAt(m: Message, chunkSize: nat, k: nat)
    requires chunkSize > 0 && 0 < k < |ChunksOf(m, chunkSize)|
    ensures FullChunks(chunkSize, k) < |m.payload| && |Continuations(m, chunkSize, FullChunks(chunkSize, k))| > 0
    ensures ChunksOf(m, chunkSize)[k] == Continuations(m, chunkSize, FullChunks(chunkSize, k))[0]
  {
    hide ChunksOf, Continuations;
    ChunksFrom(m, chunkSize, k);
    assert ChunksOf(m, chunkSize)[k] == ChunksOf(m, chunkSize)[k..][0];
  }

  predicate IsAbort(m: Message, csid: nat) {
    Writable(m) && m.messageTypeId == 2 && m.messageStreamId == 0 && csid < 0x1_0000_0000 && Names(m, csid)
  }

  /** An Abort, sent between the chunks of a message, resets the chunk stream it names and no other. */
  lemma AbortedState(h: ParserState, abort: Message, named: nat, rest: seq<byte>)
    requires h.Valid() && h.Idle() && !h.Stream(abort.chunkStreamId).Continuing() && IsAbort(abort, named)
    ensures var t := Done(h, abort); var d := Serialized(abort, h.chunkSize);
            && t.Valid() && t.Idle() && t.chunkSize == h.chunkSize && ReadsAs(h, d + rest, |d|, [abort], t, rest)
            && (named != abort.chunkStreamId ==> t.Stream(named) == h.Stream(named).(partialPayload := [], remainingBytes := 0))
            && forall c :: c in h.streams && c != named && c != abort.chunkStreamId ==>
                 c in t.streams && t.streams[c] == h.streams[c]
  {
    hide ReadsAs, Serialized, FromBigEndian4;
    NamedNumber(abort, named);
    RunMessage(h, abort, rest);
  }

  lemma HalfwayIs(s: ParserState, m: Message, offset: nat)
    requires offset <= |m.payload|
    ensures var h := Halfway(s, m, offset);
            && h.chunkSize == s.chunkSize && (h.Idle() <==> s.Idle())
            && m.chunkStreamId in h.streams && h.streams[m.chunkStreamId] == Reading(m, offset)
            && forall c :: c != m.chunkStreamId ==> h.Stream(c) == s.Stream(c)
  {}

  /** Nothing is completed before the abort, and one message after it. */
  lemma RunsOn(s: ParserState, u1: nat, h: ParserState, u2: nat, t: ParserState, u3: nat, u: ParserState,
               d: seq<byte>, wire: seq<byte>, later: seq<byte>, abort: Message, last: Message)
    requires s.Valid() && h.Valid() && t.Valid() && u.Valid()
    requires ReadsAs(s, d, u1, [], h, wire) && ReadsAs(h, wire, u2, [abort], t, later) && ReadsAs(t, later, u3, [last], u, [])
    ensures Run(s, d).out == [abort, last]
  {
    hide Step, FullOrContinuation;
    assert Run(u, []).out == [];
  }

  /** A message that is aborted after any of its chunks is not completed, and the next on its chunk stream is, as sent. */
  lemma AbortDropsMessage(s: ParserState, m: Message, k: nat, abort: Message, next: Message)
    requires s.Valid() && Clean(s) && Writable(m) && 0 < k < |ChunksOf(m, s.chunkSize)|
    requires IsAbort(abort, m.chunkStreamId) && abort.chunkStreamId != m.chunkStreamId
    requires Writable(next) && next.chunkStreamId == m.chunkStreamId
    ensures Run(s, FirstPart(m, s.chunkSize, k) + (Serialized(abort, s.chunkSize) + Serialized(next, s.chunkSize))).out == [abort, next]
  {
    hide ReadsAs, Serialized, FirstPart, ChunksOf, Done, Halfway, Run, IsAbort;
    var size := s.chunkSize;
    var later := Serialized(next, size);
    var wire := Serialized(abort, size) + later;
    var first := FirstPart(m, size, k);
    FirstPartIsRead(s, m, k, wire);
    HalfwayIs(s, m, FullChunks(size, k));
    var h := Halfway(s, m, FullChunks(size, k));
    AbortedState(h, abort, m.chunkStreamId, later);
    var t := Done(h, abort);
    RunMessage(t, next, []);
    assert later + [] == later;
    RunsOn(s, |first|, h, |Serialized(abort, size)|, t, |later|, Done(t, next), first + wire, wire, later, abort, next);
  }

  /** An Abort that names another chunk stream leaves the message under way: it is completed as sent. */
  lemma OtherAbortSparesMessage(s: ParserState, m: Message, k: nat, abort: Message, named: nat)
    requires s.Valid() && Clean(s) && Writable(m) && 0 < k < |ChunksOf(m, s.chunkSize)|
    requires IsAbort(abort, named) && named != m.chunkStreamId && abort.chunkStreamId != m.chunkStreamId
    ensures Run(s, FirstPart(m, s.chunkSize, k) + (Serialized(abort, s.chunkSize) + LastPart(m, s.chunkSize, k))).out == [abort, m]
  {
    hide ReadsAs, Serialized, FirstPart, LastPart, ChunksOf, Done, Halfway, Run, IsAbort, Reading, Continuations;
    var size := s.chunkSize;
    var later := LastPart(m, size, k);
    var wire := Serialized(abort, size) + later;
    var first := FirstPart(m, size, k);
    FirstPartIsRead(s, m, k, wire);
    LastPartIs(m, size, k);
    HalfwayIs(s, m, FullChunks(size, k));
    var h := Halfway(s, m, FullChunks(size, k));
    AbortedState(h, abort, named, later);
    var t := Done(h, abort);
    RunContinuations(t, m, FullChunks(size, k), []);
    assert later + [] == later;
    RunsOn(s, |first|, h, |Serialized(abort, size)|, t, |later|, Done(t, m), first + wire, wire, later, abort, m);
  }
}
