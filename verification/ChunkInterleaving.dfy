/**
 Chunk streams are independent: when chunks of several streams are interleaved on the wire,
 each stream's messages are what its own chunks alone would have given.
 */
module ChunkInterleaving {
  import opened Bytes
  import opened ChunkStream
  import opened ChunkFragmentation
  import opened ChunkWriter
  import opened ChunkRoundTrip

  datatype Unit = Unit(csid: nat, chunk: seq<byte>)

  /** The bytes of a schedule of chunks. */
  function Wire(units: seq<Unit>): seq<byte> {
    if units == [] then [] else units[0].chunk + Wire(units[1..])
  }

  function ChunksOn(units: seq<Unit>, csid: nat): seq<seq<byte>> {
    if units == [] then []
    else (if units[0].csid == csid then [units[0].chunk] else []) + ChunksOn(units[1..], csid)
  }

  function MessagesOn(out: seq<Message>, csid: nat): seq<Message> {
    if out == [] then []
    else (if out[0].chunkStreamId == csid then [out[0]] else []) + MessagesOn(out[1..], csid)
  }

  /** A chunk stream on its own: its chunks are whole, and give these messages. */
  datatype StreamRun = Rejected | Ran(ss: StreamState, out: seq<Message>, full: bool)

  /** What a chunk stream's state and messages are once a whole chunk has been read. */
  function Deliver(csid: nat, ss: StreamState): (StreamState, seq<Message>) {
    if ss.remainingBytes == 0 then (ss.(partialPayload := []), [Completed(csid, ss)]) else (ss, [])
  }

  function RunStream(ss: StreamState, chunkSize: nat, csid: nat, chunks: seq<seq<byte>>): StreamRun
    decreases |chunks|
  {
    if chunks == [] then Ran(ss, [], true)
    else if !IsChunk(ss, chunkSize, csid, chunks[0]) then Rejected
    else
      var (ss1, out) := Deliver(csid, AfterChunk(ss, chunkSize, csid, chunks[0]));
      match RunStream(ss1, chunkSize, csid, chunks[1..])
      case Rejected => Rejected
      case Ran(ss2, out2, full) =>
        Ran(ss2, out + out2, full && (ReadBasicHeader(chunks[0]).fmt == 0 || ReadBasicHeader(chunks[0]).fmt == 3))
  }

  function OnStream(s: ParserState, units: seq<Unit>, csid: nat): StreamRun {
    RunStream(s.Stream(csid), s.chunkSize, csid, ChunksOn(units, csid))
  }

  /** Neither Set Chunk Size nor Abort. */
  predicate Ordinary(m: Message) {
    !SetsChunkSize(m) && !Aborts(m)
  }

  ghost predicate AllOrdinary(out: seq<Message>) {
    forall m :: m in out ==> Ordinary(m)
  }

  /** Every chunk stream, on its own, accepts its chunks and completes no control message. */
  ghost predicate EachAccepts(s: ParserState, units: seq<Unit>) {
    forall c: nat :: OnStream(s, units, c).Ran? && AllOrdinary(OnStream(s, units, c).out)
  }

  /** Reading the first chunk of a schedule. */
  lemma FirstUnit(s: ParserState, units: seq<Unit>)
    requires s.Valid() && s.Idle() && units != [] && EachAccepts(s, units)
    ensures IsChunk(s.Stream(units[0].csid), s.chunkSize, units[0].csid, units[0].chunk)
    ensures var c := units[0].csid;
            var ss := AfterChunk(s.Stream(c), s.chunkSize, c, units[0].chunk);
            && Store(s, c, ss) == (s.(streams := s.streams[c := Deliver(c, ss).0]), Deliver(c, ss).1)
            && EachAccepts(s.(streams := s.streams[c := Deliver(c, ss).0]), units[1..])
  {
    hide IsChunk, AfterChunk, Ordinary;
    var c := units[0].csid;
    var run := OnStream(s, units, c);
    assert ChunksOn(units, c) == [units[0].chunk] + ChunksOn(units[1..], c);
    assert ChunksOn(units, c)[1..] == ChunksOn(units[1..], c);
    var ss := AfterChunk(s.Stream(c), s.chunkSize, c, units[0].chunk);
    var s1 := s.(streams := s.streams[c := Deliver(c, ss).0]);
    assert run.out == Deliver(c, ss).1 + OnStream(s1, units[1..], c).out;
    DeliverStores(s, c, ss);
    forall k: nat
      ensures OnStream(s1, units[1..], k).Ran? && AllOrdinary(OnStream(s1, units[1..], k).out)
    {
      if k != c {
        assert [] + ChunksOn(units[1..], k) == ChunksOn(units[1..], k);
        assert OnStream(s1, units[1..], k) == OnStream(s, units, k);
      }
    }
  }

  lemma DeliverStores(s: ParserState, c: nat, ss: StreamState)
    requires AllOrdinary(Deliver(c, ss).1)
    ensures Store(s, c, ss) == (s.(streams := s.streams[c := Deliver(c, ss).0]), Deliver(c, ss).1)
  {
    if ss.remainingBytes == 0 {
      assert Completed(c, ss) in Deliver(c, ss).1;
    }
  }

  ghost predicate EachAsAlone(s: ParserState, units: seq<Unit>, r: RunResult) {
    forall c: nat :: OnStream(s, units, c).Ran?
                     ==> MessagesOn(r.out, c) == OnStream(s, units, c).out && r.st.Stream(c) == OnStream(s, units, c).ss
  }

  lemma AloneStep(s: ParserState, units: seq<Unit>, s1: ParserState, r: RunResult)
    requires s.Valid() && s.Idle() && units != [] && EachAccepts(s, units)
    requires var c := units[0].csid;
             IsChunk(s.Stream(c), s.chunkSize, c, units[0].chunk)
             && s1 == s.(streams := s.streams[c := Deliver(c, AfterChunk(s.Stream(c), s.chunkSize, c, units[0].chunk)).0])
    requires EachAsAlone(s1, units[1..], r)
    ensures var c := units[0].csid;
            EachAsAlone(s, units, r.(out := Deliver(c, AfterChunk(s.Stream(c), s.chunkSize, c, units[0].chunk)).1 + r.out))
  {
    hide IsChunk, AfterChunk;
    var c := units[0].csid;
    var out := Deliver(c, AfterChunk(s.Stream(c), s.chunkSize, c, units[0].chunk)).1;
    assert ChunksOn(units, c) == [units[0].chunk] + ChunksOn(units[1..], c);
    assert ChunksOn(units, c)[1..] == ChunksOn(units[1..], c);
    forall k: nat | OnStream(s, units, k).Ran?
      ensures MessagesOn(out + r.out, k) == OnStream(s, units, k).out && r.st.Stream(k) == OnStream(s, units, k).ss
    {
      MessagesOnAppend(out, r.out, k);
      if k == c {
        assert MessagesOn(out, k) == out;
        assert OnStream(s, units, k).out == out + OnStream(s1, units[1..], k).out;
      } else {
        assert MessagesOn(out, k) == [];
        assert [] + ChunksOn(units[1..], k) == ChunksOn(units[1..], k);
        assert OnStream(s1, units[1..], k) == OnStream(s, units, k);
      }
    }
  }

  lemma {:induction false} MessagesOnAppend(a: seq<Message>, b: seq<Message>, c: nat)
    ensures MessagesOn(a + b, c) == MessagesOn(a, c) + MessagesOn(b, c)
  {
    if a == [] {
      assert a + b == b;
    } else {
      MessagesOnAppend(a[1..], b, c);
      assert (a + b)[1..] == a[1..] + b;
      var first := if a[0].chunkStreamId == c then [a[0]] else [];
      assert MessagesOn(a + b, c) == first + MessagesOn(a[1..] + b, c);
      assert first + (MessagesOn(a[1..], c) + MessagesOn(b, c)) == (first + MessagesOn(a[1..], c)) + MessagesOn(b, c);
    }
  }

  ghost predicate AllFull(s: ParserState, units: seq<Unit>) {
    forall c: nat :: OnStream(s, units, c).Ran? && OnStream(s, units, c).full
  }

  lemma FullStep(s: ParserState, units: seq<Unit>, s1: ParserState)
    requires units != [] && AllFull(s, units)
    requires var c := units[0].csid;
             IsChunk(s.Stream(c), s.chunkSize, c, units[0].chunk)
             && s1 == s.(streams := s.streams[c := Deliver(c, AfterChunk(s.Stream(c), s.chunkSize, c, units[0].chunk)).0])
    ensures AllFull(s1, units[1..])
    ensures ReadBasicHeader(units[0].chunk).Basic?
    ensures ReadBasicHeader(units[0].chunk).fmt == 0 || ReadBasicHeader(units[0].chunk).fmt == 3
  {
    hide AfterChunk, ReadChunk, ReadBasicHeader;
    var c := units[0].csid;
    assert OnStream(s, units, c).full;
    assert ChunksOn(units, c) == [units[0].chunk] + ChunksOn(units[1..], c);
    assert ChunksOn(units, c)[1..] == ChunksOn(units[1..], c);
    forall k: nat ensures OnStream(s1, units[1..], k).Ran? && OnStream(s1, units[1..], k).full {
      assert OnStream(s, units, k).full;
      if k != c {
        assert [] + ChunksOn(units[1..], k) == ChunksOn(units[1..], k);
        assert OnStream(s1, units[1..], k) == OnStream(s, units, k);
      }
    }
  }

  /**
   Interleaving independence, for chunks of any type: the messages completed on each chunk
   stream, and the state it is left in, do not depend on what the other streams carry in between.
   */
  lemma {:induction false} Interleaving(s: ParserState, units: seq<Unit>)
    requires s.Valid() && s.Idle() && EachAccepts(s, units)
    ensures var r := Run(s, Wire(units));
            && r.used == |Wire(units)| && EachAsAlone(s, units, r)
            && r.st.Idle() && r.st.chunkSize == s.chunkSize
    ensures AllFull(s, units) ==> FullOrContinuation(s, Wire(units))
    decreases |units|
  {
    hide IsChunk, AfterChunk, Store, Step;
    if units != [] {
      FirstUnit(s, units);
      var c := units[0].csid;
      var ss := AfterChunk(s.Stream(c), s.chunkSize, c, units[0].chunk);
      var s1 := s.(streams := s.streams[c := Deliver(c, ss).0]);
      var rest := Wire(units[1..]);
      StepOnChunk(s, c, units[0].chunk, rest);
      assert (units[0].chunk + rest)[|units[0].chunk|..] == rest;
      Interleaving(s1, units[1..]);
      AloneStep(s, units, s1, Run(s1, rest));
      if AllFull(s, units) {
        FullStep(s, units, s1);
        FullWire(s, units[0].chunk, rest);
      }
    }
  }

  // ----- messages

  function ChunksOfAll(ms: seq<Message>, chunkSize: nat): seq<seq<byte>>
    requires chunkSize > 0
  {
    if ms == [] then [] else ChunksOf(ms[0], chunkSize) + ChunksOfAll(ms[1..], chunkSize)
  }

  function Then(first: StreamRun, chunkSize: nat, csid: nat, chunks: seq<seq<byte>>): StreamRun {
    match first
    case Rejected => Rejected
    case Ran(ss, out, full) =>
      match RunStream(ss, chunkSize, csid, chunks)
      case Rejected => Rejected
      case Ran(ss2, out2, full2) => Ran(ss2, out + out2, full && full2)
  }

  lemma {:induction false} RunStreamAppend(ss: StreamState, chunkSize: nat, csid: nat, a: seq<seq<byte>>, b: seq<seq<byte>>)
    ensures RunStream(ss, chunkSize, csid, a + b) == Then(RunStream(ss, chunkSize, csid, a), chunkSize, csid, b)
    decreases |a|
  {
    hide IsChunk, AfterChunk;
    if a == [] {
      assert a + b == b;
    } else if IsChunk(ss, chunkSize, csid, a[0]) {
      assert (a + b)[1..] == a[1..] + b;
      var (ss1, out) := Deliver(csid, AfterChunk(ss, chunkSize, csid, a[0]));
      RunStreamAppend(ss1, chunkSize, csid, a[1..], b);
    }
  }

  function Sent(m: Message): StreamState {
    Reading(m, |m.payload|).(partialPayload := [])
  }

  lemma {:induction false} ContinuationsRun(m: Message, chunkSize: nat, offset: nat)
    requires Writable(m) && 0 < offset < |m.payload| && chunkSize > 0
    ensures RunStream(Reading(m, offset), chunkSize, m.chunkStreamId, Continuations(m, chunkSize, offset))
         == Ran(Sent(m), [m], true)
    decreases |m.payload| - offset
  {
    hide IsChunk, AfterChunk, ReadBasicHeader;
    var n := Min(chunkSize, |m.payload| - offset);
    ContinuationReads(m, chunkSize, offset);
    CompletedIsMessage(m);
    var later := Continuations(m, chunkSize, offset + n);
    var b := ContinuationHeader(m) + m.payload[offset..offset + n];
    assert ([b] + later)[1..] == later;
    if offset + n < |m.payload| {
      ContinuationsRun(m, chunkSize, offset + n);
    }
  }

  lemma MessageRun(ss: StreamState, m: Message, chunkSize: nat)
    requires Writable(m) && !ss.Continuing() && chunkSize > 0
    ensures RunStream(ss, chunkSize, m.chunkStreamId, ChunksOf(m, chunkSize)) == Ran(Sent(m), [m], true)
  {
    hide IsChunk, AfterChunk, ReadBasicHeader;
    var n := Min(chunkSize, |m.payload|);
    FirstChunkReads(ss, m, chunkSize);
    CompletedIsMessage(m);
    var later := Continuations(m, chunkSize, n);
    var b := FirstHeader(m) + m.payload[..n];
    assert ([b] + later)[1..] == later;
    if n < |m.payload| {
      ContinuationsRun(m, chunkSize, n);
    }
  }

  lemma {:induction false} MessagesRun(ss: StreamState, ms: seq<Message>, chunkSize: nat, csid: nat)
    requires !ss.Continuing() && chunkSize > 0
    requires forall m :: m in ms ==> Writable(m) && m.chunkStreamId == csid
    ensures var r := RunStream(ss, chunkSize, csid, ChunksOfAll(ms, chunkSize));
            r.Ran? && r.out == ms && r.full && !r.ss.Continuing()
    decreases |ms|
  {
    if ms != [] {
      MessageRun(ss, ms[0], chunkSize);
      MessagesRun(Sent(ms[0]), ms[1..], chunkSize, csid);
      RunStreamAppend(ss, chunkSize, csid, ChunksOf(ms[0], chunkSize), ChunksOfAll(ms[1..], chunkSize));
      assert [ms[0]] + ms[1..] == ms;
    }
  }

  function SentOn(sent: map<nat, seq<Message>>, csid: nat): seq<Message> {
    if csid in sent then sent[csid] else []
  }

  /** The schedule carries, on each chunk stream, the chunks of the messages sent on it, in order. */
  ghost predicate Carries(units: seq<Unit>, sent: map<nat, seq<Message>>, chunkSize: nat)
    requires chunkSize > 0
  {
    && (forall c: nat :: ChunksOn(units, c) == ChunksOfAll(SentOn(sent, c), chunkSize))
    && (forall c, m :: c in sent && m in sent[c] ==> Writable(m) && m.chunkStreamId == c && Ordinary(m))
  }

  lemma CarriedIsAccepted(s: ParserState, units: seq<Unit>, sent: map<nat, seq<Message>>)
    requires s.Valid() && Clean(s) && Carries(units, sent, s.chunkSize)
    ensures EachAccepts(s, units) && AllFull(s, units)
    ensures forall c: nat :: OnStream(s, units, c).Ran? && OnStream(s, units, c).out == SentOn(sent, c)
                             && !OnStream(s, units, c).ss.Continuing()
  {
    forall c: nat
      ensures OnStream(s, units, c).Ran? && OnStream(s, units, c).out == SentOn(sent, c)
              && OnStream(s, units, c).full && !OnStream(s, units, c).ss.Continuing()
              && AllOrdinary(OnStream(s, units, c).out)
    {
      MessagesRun(s.Stream(c), SentOn(sent, c), s.chunkSize, c);
      assert ChunksOn(units, c) == ChunksOfAll(SentOn(sent, c), s.chunkSize);
    }
  }

  /**
   Messages sent on different chunk streams, their chunks interleaved in any order and the bytes
   cut in any way, are completed on each stream exactly as sent, in order.
   */
  lemma InterleavingIndependence(s: ParserState, units: seq<Unit>, sent: map<nat, seq<Message>>, pieces: seq<seq<byte>>)
    requires s.Valid() && Clean(s) && Carries(units, sent, s.chunkSize)
    requires Flatten(pieces) == Wire(units)
    ensures var f := Feed(s, [], pieces);
            && f.residue == [] && Clean(f.st)
            && forall c: nat :: MessagesOn(f.out, c) == SentOn(sent, c)
  {
    hide Run, Feed, FullOrContinuation, OnStream;
    CarriedIsAccepted(s, units, sent);
    Interleaving(s, units);
    FragmentationOfFullChunks(s, pieces);
    var r := Run(s, Wire(units));
    forall k | k in r.st.streams ensures !r.st.streams[k].Continuing() {
      assert OnStream(s, units, k).Ran?;
      assert r.st.Stream(k) == OnStream(s, units, k).ss;
    }
  }
}
