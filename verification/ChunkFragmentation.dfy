/**
 Cutting a byte stream into reads does not change what the parser makes of it.

 The read path presents to the parser, at each read, the bytes it left unconsumed followed by
 the new ones. `Feed` is that loop. Headers of Type 1 and 2 are not idempotent: presented twice,
 they add their timestamp delta twice. So everything but the timestamps is independent of the
 cuts, and the timestamps are too as long as no read ends exactly behind such a header.
 */
module ChunkFragmentation {
  import opened Bytes
  import opened ChunkStream

  datatype FeedResult = FeedResult(st: ParserState, residue: seq<byte>, out: seq<Message>)

  /** The reads `pieces`, one after the other, on a parser that has left `residue` unconsumed. */
  function Feed(s: ParserState, residue: seq<byte>, pieces: seq<seq<byte>>): (r: FeedResult)
    requires s.Valid()
    ensures r.st.Valid()
    decreases |pieces|
  {
    if pieces == [] then FeedResult(s, residue, [])
    else
      var d := residue + pieces[0];
      var p := Run(s, d);
      var q := Feed(p.st, d[p.used..], pieces[1..]);
      FeedResult(q.st, q.residue, p.out + q.out)
  }

  // ----- equality up to timestamps

  /** Equal, or, when `exact` is not asked for, equal but for timestamps. */
  ghost predicate AgreeStream(exact: bool, a: StreamState, b: StreamState) {
    if exact then a == b else a.(timestamp := 0) == b.(timestamp := 0)
  }

  ghost predicate AgreeStreams(exact: bool, a: map<nat, StreamState>, b: map<nat, StreamState>) {
    a.Keys == b.Keys && forall k :: k in a ==> AgreeStream(exact, a[k], b[k])
  }

  ghost predicate Agree(exact: bool, a: ParserState, b: ParserState) {
    && a.chunkSize == b.chunkSize && a.pendingCsid == b.pendingCsid && a.pendingBytes == b.pendingBytes
    && AgreeStreams(exact, a.streams, b.streams)
  }

  ghost predicate AgreeMessages(exact: bool, a: seq<Message>, b: seq<Message>) {
    if exact then a == b
    else |a| == |b| && forall i :: 0 <= i < |a| ==> a[i].(timestamp := 0) == b[i].(timestamp := 0)
  }

  ghost predicate AgreeChunk(exact: bool, a: ChunkRead, b: ChunkRead) {
    && AgreeStream(exact, a.ss, b.ss)
    && (a.NeedMore? <==> b.NeedMore?)
    && (a.Short? ==> b.Short? && a.pending == b.pending)
    && (a.Whole? ==> b.Whole? && a.size == b.size)
  }

  // ----- the non-idempotent headers

  /**
   `d` is a complete Type 1 or 2 header, with a delta that moves the timestamp, and nothing
   behind it.
   */
  predicate BareDeltaHeader(d: seq<byte>) {
    match ReadBasicHeader(d)
    case BasicIncomplete => false
    case Basic(fmt, _, n) => (fmt == 1 || fmt == 2) && BareDelta(fmt, d[n..])
  }

  predicate BareDelta(fmt: nat, d: seq<byte>)
    requires fmt == 1 || fmt == 2
  {
    var n := MessageHeaderSize(fmt);
    n <= |d| &&
    var delta := FromBigEndian3(d);
    if delta == EXTENDED_TIMESTAMP_MARKER then |d| == n + 4 && FromBigEndian4(d[n..]) != 0
    else |d| == n && delta != 0
  }

  // ----- one chunk

  lemma HeaderPrefix(ss: StreamState, fmt: nat, d: seq<byte>, e: seq<byte>)
    requires MessageHeaderSize(fmt) <= |d|
    ensures ApplyMessageHeader(ss, fmt, d + e) == ApplyMessageHeader(ss, fmt, d)
  {
    var n := MessageHeaderSize(fmt);
    if n == 11 {
      assert (d + e)[3..] == d[3..] + e && (d + e)[7..] == d[7..] + e;
    } else if n == 7 {
      assert (d + e)[3..] == d[3..] + e;
    }
  }

  lemma HeaderExtends(ss: StreamState, fmt: nat, d: seq<byte>, e: seq<byte>)
    requires ReadHeader(ss, fmt, d).HeaderDone?
    ensures ReadHeader(ss, fmt, d + e) == ReadHeader(ss, fmt, d)
  {
    HeaderPrefix(ss, fmt, d, e);
    var n := MessageHeaderSize(fmt);
    assert (d + e)[n..] == d[n..] + e;
    hide ApplyMessageHeader, ApplyExtendedTimestamp;
  }

  lemma SamePrefix(d: seq<byte>, e: seq<byte>, i: nat, j: nat)
    requires i <= j <= |d|
    ensures (d + e)[i..j] == d[i..j]
  {}

  lemma WholeExtends(ss: StreamState, chunkSize: nat, fmt: nat, d: seq<byte>, e: seq<byte>)
    requires ReadChunk(ss, chunkSize, fmt, d).Whole?
    ensures ReadChunk(ss, chunkSize, fmt, d + e) == ReadChunk(ss, chunkSize, fmt, d)
  {
    HeaderExtends(ss, fmt, d, e);
    var h := ReadHeader(ss, fmt, d);
    hide ReadHeader;
    var toRead := Min(chunkSize, StartMessage(h.ss).remainingBytes);
    SamePrefix(d, e, h.size, h.size + toRead);
  }

  lemma SliceAcross(d: seq<byte>, e: seq<byte>, i: nat, j: nat)
    requires i <= |d| <= j <= |d| + |e|
    ensures (d + e)[i..j] == d[i..] + e[..j - |d|]
  {}

  lemma AppendTwice(ss: StreamState, a: seq<byte>, b: seq<byte>)
    requires |a| + |b| <= ss.remainingBytes
    ensures Append(ss, a + b) == Append(Append(ss, a), b)
  {
    assert ss.partialPayload + (a + b) == ss.partialPayload + a + b;
  }

  lemma PayloadExtends(ss: StreamState, chunkSize: nat, d: seq<byte>, n: nat, e: seq<byte>)
    requires n <= |d| && ReadPayload(ss, chunkSize, d, n).Short?
    ensures var r := ReadPayload(ss, chunkSize, d, n);
            && r.pending <= r.ss.remainingBytes
            && ReadPayload(ss, chunkSize, d + e, n) ==
                 if |e| >= r.pending then Whole(Append(r.ss, e[..r.pending]), |d| + r.pending)
                 else Short(Append(r.ss, e), r.pending - |e|)
  {
    var m := Min(Min(chunkSize, ss.remainingBytes) - (|d| - n), |e|);
    SliceAcross(d, e, n, |d| + m);
    AppendTwice(ss, d[n..], e[..m]);
    if m == |e| {
      assert e[..m] == e && (d + e)[n..] == (d + e)[n..|d| + m];
    }
  }

  /** A chunk read in two pieces: the second piece goes behind the first. */
  lemma ShortExtends(ss: StreamState, chunkSize: nat, fmt: nat, d: seq<byte>, e: seq<byte>)
    requires ReadChunk(ss, chunkSize, fmt, d).Short?
    ensures var r := ReadChunk(ss, chunkSize, fmt, d);
            && r.pending <= r.ss.remainingBytes
            && ReadChunk(ss, chunkSize, fmt, d + e) ==
                 if |e| >= r.pending then Whole(Append(r.ss, e[..r.pending]), |d| + r.pending)
                 else Short(Append(r.ss, e), r.pending - |e|)
  {
    HeaderExtends(ss, fmt, d, e);
    var h := ReadHeader(ss, fmt, d);
    PayloadExtends(StartMessage(h.ss), chunkSize, d, h.size, e);
  }

  /** A message header that waits for its extended timestamp can be read again without effect. */
  lemma WaitingHeaderIsIdempotent(ss: StreamState, fmt: nat, d: seq<byte>)
    requires MessageHeaderSize(fmt) <= |d| && ApplyMessageHeader(ss, fmt, d).hasExtendedTimestamp
    ensures var ss1 := ApplyMessageHeader(ss, fmt, d); ApplyMessageHeader(ss1, fmt, d) == ss1
  {}

  /** Once its message is started, a header read again changes at most the timestamp. */
  lemma StartedHeaderIsIdempotent(exact: bool, ss: StreamState, fmt: nat, d: seq<byte>)
    requires ReadHeader(ss, fmt, d).HeaderDone? && ReadHeader(ss, fmt, d).size == |d|
    requires fmt <= 3 && StartMessage(ReadHeader(ss, fmt, d).ss).Continuing()
    requires exact && (fmt == 1 || fmt == 2) ==> !BareDelta(fmt, d)
    ensures var ss1 := StartMessage(ReadHeader(ss, fmt, d).ss);
            var again := ReadHeader(ss1, fmt, d);
            again.HeaderDone? && again.size == |d| && AgreeStream(exact, again.ss, ss1)
  {}

  lemma PayloadAgrees(exact: bool, a: StreamState, b: StreamState, chunkSize: nat, d: seq<byte>, n: nat)
    requires AgreeStream(exact, a, b) && n <= |d|
    ensures AgreeChunk(exact, ReadPayload(a, chunkSize, d, n), ReadPayload(b, chunkSize, d, n))
  {}

  /** Presenting an incomplete chunk again, longer, is as if it had been presented longer at once. */
  lemma RepresentChunk(exact: bool, ss: StreamState, chunkSize: nat, fmt: nat, d: seq<byte>, e: seq<byte>)
    requires ReadChunk(ss, chunkSize, fmt, d).NeedMore?
    requires chunkSize > 0 && fmt <= 3
    requires exact && (fmt == 1 || fmt == 2) ==> !BareDelta(fmt, d)
    ensures AgreeChunk(exact, ReadChunk(ReadChunk(ss, chunkSize, fmt, d).ss, chunkSize, fmt, d + e),
                              ReadChunk(ss, chunkSize, fmt, d + e))
  {
    var n := MessageHeaderSize(fmt);
    var h := ReadHeader(ss, fmt, d);
    if h.HeaderDone? {
      StartedHeaderIsIdempotent(exact, ss, fmt, d);
      var ss1 := StartMessage(h.ss);
      HeaderExtends(ss, fmt, d, e);
      HeaderExtends(ss1, fmt, d, e);
      PayloadAgrees(exact, ReadHeader(ss1, fmt, d).ss, ss1, chunkSize, d + e, |d|);
    } else if |d| >= n {
      WaitingHeaderIsIdempotent(ss, fmt, d);
      HeaderPrefix(ss, fmt, d, e);
      HeaderPrefix(h.ss, fmt, d, e);
    }
  }

  lemma ChunkAgrees(a: StreamState, b: StreamState, chunkSize: nat, fmt: nat, d: seq<byte>)
    requires AgreeStream(false, a, b)
    ensures AgreeChunk(false, ReadChunk(a, chunkSize, fmt, d), ReadChunk(b, chunkSize, fmt, d))
  {
    var n := MessageHeaderSize(fmt);
    if n <= |d| {
      assert AgreeStream(false, ApplyMessageHeader(a, fmt, d), ApplyMessageHeader(b, fmt, d));
    }
    var ha, hb := ReadHeader(a, fmt, d), ReadHeader(b, fmt, d);
    if ha.HeaderDone? {
      PayloadAgrees(false, StartMessage(ha.ss), StartMessage(hb.ss), chunkSize, d, ha.size);
    }
  }

  // ----- one turn of the loop

  lemma BasicExtends(d: seq<byte>, e: seq<byte>)
    requires ReadBasicHeader(d).Basic?
    ensures ReadBasicHeader(d + e) == ReadBasicHeader(d)
    ensures var n := ReadBasicHeader(d).size; (d + e)[n..] == d[n..] + e
  {}

  /** A turn that got all the bytes it wanted does not look further. */
  lemma StepExtends(s: ParserState, d: seq<byte>, e: seq<byte>)
    requires s.Valid() && d != [] && !Step(s, d).stop && s.pendingBytes <= |d|
    ensures Step(s, d + e) == Step(s, d)
  {
    if s.Idle() {
      var h := ReadBasicHeader(d);
      BasicExtends(d, e);
      WholeExtends(s.Stream(h.csid), s.chunkSize, h.fmt, d[h.size..], e);
    } else {
      assert (d + e)[..s.pendingBytes] == d[..s.pendingBytes];
    }
  }

  ghost predicate SameButUsed(a: StepResult, b: StepResult, shift: nat) {
    a.st == b.st && a.out == b.out && a.used == b.used + shift
  }

  /** A chunk whose payload ran out is resumed by the next turn. */
  lemma ShortResumes(s: ParserState, d: seq<byte>, e: seq<byte>)
    requires s.Valid() && d != [] && e != [] && s.Idle() && Step(s, d).stop && Step(s, d).used == |d|
    ensures Step(s, d).out == [] && !Step(Step(s, d).st, e).stop
    ensures SameButUsed(Step(s, d + e), Step(Step(s, d).st, e), |d|)
    ensures Step(s, d + e).stop ==> Step(s, d + e).used == |d + e|
  {
    var h := ReadBasicHeader(d);
    BasicExtends(d, e);
    var r := ReadChunk(s.Stream(h.csid), s.chunkSize, h.fmt, d[h.size..]);
    assert r.Short?;
    ShortExtends(s.Stream(h.csid), s.chunkSize, h.fmt, d[h.size..], e);
    hide ReadChunk, ReadBasicHeader, Store;
    var s' := Step(s, d).st;
    assert s' == s.(streams := s.streams[h.csid := r.ss], pendingCsid := h.csid, pendingBytes := r.pending);
    if |e| >= r.pending {
      var done := Append(r.ss, e[..r.pending]);
      StoreOverwrites(s, h.csid, r.ss, done);
      assert s'.(pendingCsid := 0, pendingBytes := 0) == s.(streams := s.streams[h.csid := r.ss]);
      assert StepPending(s', e) == StepResult(Store(s, h.csid, done).0, r.pending, Store(s, h.csid, done).1, false);
    } else {
      assert e[..|e|] == e;
      assert s'.streams[h.csid := Append(r.ss, e)] == s.streams[h.csid := Append(r.ss, e)];
    }
  }

  lemma PendingResumes(s: ParserState, d: seq<byte>, e: seq<byte>)
    requires s.Valid() && d != [] && e != [] && |d| < s.pendingBytes
    ensures Step(s, d).out == [] && Step(s, d).used == |d| && !Step(Step(s, d).st, e).stop
    ensures SameButUsed(Step(s, d + e), Step(Step(s, d).st, e), |d|)
    ensures !Step(s, d + e).stop
  {
    var c := s.pendingCsid;
    var ss := s.streams[c];
    var m := Min(s.pendingBytes - |d|, |e|);
    assert d[..|d|] == d && (d + e)[..|d| + m] == d + e[..m];
    var part, done := Append(ss, d), Append(ss, d + e[..m]);
    AppendTwice(ss, d, e[..m]);
    var s0 := s.(pendingCsid := 0, pendingBytes := 0);
    StoreOverwrites(s0, c, part, done);
    assert s.streams[c := part][c := done] == s.streams[c := done];
    assert Step(s, d).st == s.(streams := s.streams[c := part], pendingBytes := s.pendingBytes - |d|);
    assert Step(s, d).st.(pendingCsid := 0, pendingBytes := 0) == s0.(streams := s0.streams[c := part]);
  }

  ghost predicate AgreeStep(exact: bool, a: StepResult, b: StepResult) {
    Agree(exact, a.st, b.st) && AgreeMessages(exact, a.out, b.out) && a.used == b.used && a.stop == b.stop
  }

  lemma StoreAgrees(exact: bool, a: ParserState, b: ParserState, csid: nat, ssa: StreamState, ssb: StreamState)
    requires AgreeStream(exact, ssa, ssb)
    requires a.chunkSize == b.chunkSize && a.pendingCsid == b.pendingCsid && a.pendingBytes == b.pendingBytes
    requires AgreeStreams(exact, a.streams[csid := ssa], b.streams[csid := ssb])
    ensures Agree(exact, Store(a, csid, ssa).0, Store(b, csid, ssb).0)
    ensures AgreeMessages(exact, Store(a, csid, ssa).1, Store(b, csid, ssb).1)
  {
    hide AgreeStreams, Control;
    if ssa.remainingBytes == 0 {
      var sa, sb := ssa.(partialPayload := []), ssb.(partialPayload := []);
      ClearedAgree(exact, a, b, csid, ssa, ssb);
      ControlAgrees(exact, a.(streams := a.streams[csid := sa]), b.(streams := b.streams[csid := sb]),
                    Completed(csid, ssa), Completed(csid, ssb));
    }
  }

  lemma ClearedAgree(exact: bool, a: ParserState, b: ParserState, csid: nat, ssa: StreamState, ssb: StreamState)
    requires AgreeStream(exact, ssa, ssb) && AgreeStreams(exact, a.streams[csid := ssa], b.streams[csid := ssb])
    ensures AgreeStreams(exact, a.streams[csid := ssa.(partialPayload := [])], b.streams[csid := ssb.(partialPayload := [])])
  {
    hide AgreeStream;
    ClearedStreamAgrees(exact, ssa, ssb);
    assert forall k :: k in a.streams && k != csid ==> k in a.streams[csid := ssa] && a.streams[csid := ssa][k] == a.streams[k];
    assert forall k :: k in b.streams && k != csid ==> k in b.streams[csid := ssb] && b.streams[csid := ssb][k] == b.streams[k];
  }

  lemma ClearedStreamAgrees(exact: bool, ssa: StreamState, ssb: StreamState)
    requires AgreeStream(exact, ssa, ssb)
    ensures AgreeStream(exact, ssa.(partialPayload := []), ssb.(partialPayload := []))
  {}

  lemma ControlAgrees(exact: bool, a: ParserState, b: ParserState, m: Message, n: Message)
    requires Agree(exact, a, b) && m.(timestamp := 0) == n.(timestamp := 0)
    ensures Agree(exact, Control(a, m), Control(b, n))
  {}

  lemma SettleAgrees(exact: bool, a: ParserState, b: ParserState, csid: nat, n: nat, length: nat, ra: ChunkRead, rb: ChunkRead)
    requires AgreeChunk(exact, ra, rb)
    requires a.chunkSize == b.chunkSize && a.pendingCsid == b.pendingCsid && a.pendingBytes == b.pendingBytes
    requires AgreeStreams(exact, a.streams[csid := ra.ss], b.streams[csid := rb.ss])
    ensures AgreeStep(exact, Settle(a, csid, n, length, ra), Settle(b, csid, n, length, rb))
  {
    StoreAgrees(exact, a, b, csid, ra.ss, rb.ss);
  }

  lemma PendingAgrees(a: ParserState, b: ParserState, d: seq<byte>)
    requires a.Valid() && b.Valid() && Agree(false, a, b) && d != [] && !a.Idle()
    ensures AgreeStep(false, Step(a, d), Step(b, d))
  {
    var c := a.pendingCsid;
    var n := Min(a.pendingBytes, |d|);
    var ssa, ssb := Append(a.streams[c], d[..n]), Append(b.streams[c], d[..n]);
    assert AgreeStreams(false, a.streams[c := ssa], b.streams[c := ssb]);
    StoreAgrees(false, a.(pendingCsid := 0, pendingBytes := 0), b.(pendingCsid := 0, pendingBytes := 0), c, ssa, ssb);
  }

  /** Parsers that agree keep agreeing on the same input. */
  lemma StepAgrees(a: ParserState, b: ParserState, d: seq<byte>)
    requires a.Valid() && b.Valid() && Agree(false, a, b) && d != []
    ensures AgreeStep(false, Step(a, d), Step(b, d))
  {
    hide ReadChunk, Settle;
    if !a.Idle() {
      PendingAgrees(a, b, d);
    } else if ReadBasicHeader(d).Basic? {
      var h := ReadBasicHeader(d);
      ChunkAgrees(a.Stream(h.csid), b.Stream(h.csid), a.chunkSize, h.fmt, d[h.size..]);
      var ra := ReadChunk(a.Stream(h.csid), a.chunkSize, h.fmt, d[h.size..]);
      var rb := ReadChunk(b.Stream(h.csid), b.chunkSize, h.fmt, d[h.size..]);
      assert AgreeStreams(false, a.streams[h.csid := ra.ss], b.streams[h.csid := rb.ss]);
      SettleAgrees(false, a, b, h.csid, h.size, |d|, ra, rb);
    }
  }

  /** A turn that consumed nothing can be repeated on more bytes. */
  lemma StepRepresents(exact: bool, s: ParserState, d: seq<byte>, e: seq<byte>)
    requires s.Valid() && d != [] && Step(s, d).stop && Step(s, d).used < |d|
    requires exact ==> !BareDeltaHeader(d)
    ensures AgreeStep(exact, Step(Step(s, d).st, d + e), Step(s, d + e))
  {
    var h := ReadBasicHeader(d);
    if h.Basic? {
      var ss := s.Stream(h.csid);
      var r := ReadChunk(ss, s.chunkSize, h.fmt, d[h.size..]);
      assert r.NeedMore?;
      BasicExtends(d, e);
      RepresentChunk(exact, ss, s.chunkSize, h.fmt, d[h.size..], e);
      RepresentSettles(exact, s, h, |d + e|, r.ss,
                       ReadChunk(r.ss, s.chunkSize, h.fmt, (d + e)[h.size..]),
                       ReadChunk(ss, s.chunkSize, h.fmt, (d + e)[h.size..]));
    }
  }

  lemma RepresentSettles(exact: bool, s: ParserState, h: BasicHeader, length: nat, ss: StreamState, r1: ChunkRead, r2: ChunkRead)
    requires h.Basic? && AgreeChunk(exact, r1, r2)
    ensures var s' := s.(streams := s.streams[h.csid := ss]);
            AgreeStep(exact, Settle(s', h.csid, h.size, length, r1), Settle(s, h.csid, h.size, length, r2))
  {
    var s' := s.(streams := s.streams[h.csid := ss]);
    assert s'.streams[h.csid := r1.ss] == s.streams[h.csid := r1.ss];
    assert AgreeStreams(exact, s'.streams[h.csid := r1.ss], s.streams[h.csid := r2.ss]);
    SettleAgrees(exact, s', s, h.csid, h.size, length, r1, r2);
  }

  // ----- whole runs

  ghost predicate AgreeRun(exact: bool, a: RunResult, b: RunResult) {
    Agree(exact, a.st, b.st) && AgreeMessages(exact, a.out, b.out) && a.used == b.used
  }

  function Prepend(p: StepResult, r: RunResult): RunResult {
    RunResult(r.st, p.used + r.used, p.out + r.out)
  }

  lemma AgreeReflexive(exact: bool, r: RunResult)
    ensures AgreeRun(exact, r, r)
  {}

  lemma ExactlyEqual(a: ParserState, b: ParserState)
    requires Agree(true, a, b)
    ensures a == b
  {}

  lemma TurnsAgree(exact: bool, p: StepResult, q: StepResult, a: RunResult, b: RunResult)
    requires AgreeStep(exact, p, q) && AgreeRun(exact, a, b)
    ensures AgreeRun(exact, Prepend(p, a), Prepend(q, b))
  {}

  lemma {:induction false} RunAgrees(a: ParserState, b: ParserState, d: seq<byte>)
    requires a.Valid() && b.Valid() && Agree(false, a, b)
    ensures AgreeRun(false, Run(a, d), Run(b, d))
    decreases |d|, 1
  {
    hide Step;
    if d != [] {
      StepAgrees(a, b, d);
      RunFromStep(false, a, b, d);
    }
  }

  /** Two parsers whose first turns agree agree on the run. */
  lemma {:induction false} RunFromStep(exact: bool, a: ParserState, b: ParserState, d: seq<byte>)
    requires a.Valid() && b.Valid() && d != [] && AgreeStep(exact, Step(a, d), Step(b, d))
    ensures AgreeRun(exact, Run(a, d), Run(b, d))
    decreases |d|, 0
  {
    hide Step, Agree;
    var p, q := Step(a, d), Step(b, d);
    if !p.stop {
      var rest := d[p.used..];
      if exact {
        ExactlyEqual(p.st, q.st);
        AgreeReflexive(exact, Run(p.st, rest));
      } else {
        RunAgrees(p.st, q.st, rest);
      }
      TurnsAgree(exact, p, q, Run(p.st, rest), Run(q.st, rest));
    }
  }

  /** A call cut in two: what the first call leaves is presented again with the rest. */
  ghost predicate SplitRun(exact: bool, s: ParserState, d: seq<byte>, e: seq<byte>)
    requires s.Valid()
  {
    var first := Run(s, d);
    var second := Run(first.st, d[first.used..] + e);
    AgreeRun(exact, RunResult(second.st, first.used + second.used, first.out + second.out), Run(s, d + e))
  }

  /** A run whose first turn resumes another parser's turn, `shift` bytes later, ends as that parser's run. */
  lemma RunResumes(a: ParserState, x: seq<byte>, b: ParserState, y: seq<byte>)
    requires a.Valid() && b.Valid() && x != [] && y != []
    requires SameButUsed(Step(b, y + x), Step(a, x), |y|)
    requires Step(b, y + x).stop ==> Step(b, y + x).used == |y + x|
    requires !Step(a, x).stop
    ensures Run(b, y + x) == RunResult(Run(a, x).st, |y| + Run(a, x).used, Run(a, x).out)
  {
    hide Step;
    var p, q := Step(a, x), Step(b, y + x);
    assert (y + x)[q.used..] == x[p.used..];
    if q.used == |y + x| {
      assert x[p.used..] == [];
      assert p.out + [] == p.out;
    }
  }

  lemma SplitResumed(exact: bool, s: ParserState, d: seq<byte>, e: seq<byte>)
    requires s.Valid() && d != []
    requires if s.Idle() then Step(s, d).stop && Step(s, d).used == |d| else |d| < s.pendingBytes
    ensures SplitRun(exact, s, d, e)
  {
    hide Step;
    var p := Step(s, d);
    if !s.Idle() {
      PendingResumes(s, d, [0]);
    }
    assert d[|d|..] == [] && [] + e == e;
    if e == [] {
      assert d + e == d;
      assert Run(s, d).st == p.st;
    } else {
      if s.Idle() {
        ShortResumes(s, d, e);
      } else {
        PendingResumes(s, d, e);
      }
      assert Run(s, d) == RunResult(p.st, |d|, []);
      RunResumes(p.st, e, s, d);
    }
    AgreeReflexive(exact, Run(s, d + e));
  }

  lemma SplitRepresented(exact: bool, s: ParserState, d: seq<byte>, e: seq<byte>)
    requires s.Valid() && d != [] && Step(s, d).stop && Step(s, d).used < |d|
    requires exact ==> !BareDeltaHeader(d)
    ensures SplitRun(exact, s, d, e)
  {
    var p := Step(s, d);
    assert p.used == 0 && p.out == [];
    assert d[0..] == d;
    StepRepresents(exact, s, d, e);
    RunFromStep(exact, p.st, s, d + e);
    assert [] + Run(p.st, d + e).out == Run(p.st, d + e).out;
  }

  /** `first` then `second` agrees with `whole`; putting the same turn before both keeps that. */
  lemma PrependAgrees(exact: bool, p: StepResult, first: RunResult, second: RunResult, whole: RunResult)
    requires AgreeRun(exact, RunResult(second.st, first.used + second.used, first.out + second.out), whole)
    ensures var f := Prepend(p, first);
            AgreeRun(exact, RunResult(second.st, f.used + second.used, f.out + second.out), Prepend(p, whole))
  {
    assert (p.out + first.out) + second.out == p.out + (first.out + second.out);
  }

  lemma RunAfterTurn(s: ParserState, d: seq<byte>, e: seq<byte>)
    requires s.Valid() && d != [] && !Step(s, d).stop && s.pendingBytes <= |d|
    ensures var p := Step(s, d); Run(s, d + e) == Prepend(p, Run(p.st, d[p.used..] + e))
  {
    hide Step;
    StepExtends(s, d, e);
    assert (d + e)[Step(s, d).used..] == d[Step(s, d).used..] + e;
  }

  lemma SplitAfterTurn(exact: bool, s: ParserState, d: seq<byte>, e: seq<byte>)
    requires s.Valid() && d != [] && !Step(s, d).stop && s.pendingBytes <= |d|
    requires SplitRun(exact, Step(s, d).st, d[Step(s, d).used..], e)
    ensures SplitRun(exact, s, d, e)
  {
    hide Run, Step;
    var p := Step(s, d);
    var d' := d[p.used..];
    var first := Run(p.st, d');
    var second := Run(first.st, d'[first.used..] + e);
    RunAfterTurn(s, d, e);
    assert Run(s, d) == Prepend(p, first) by { RunAfterTurn(s, d, []); assert d + [] == d && d' + [] == d'; }
    PrependAgrees(exact, p, first, second, Run(p.st, d' + e));
    assert d'[first.used..] == d[p.used + first.used..];
  }

  /** The two-call law, for every input and every place to cut it. */
  lemma {:induction false} CutInTwo(exact: bool, s: ParserState, d: seq<byte>, e: seq<byte>)
    requires s.Valid()
    requires exact ==> !BareDeltaHeader(Residue(s, d))
    ensures SplitRun(exact, s, d, e)
    decreases |d|
  {
    hide Step;
    if d == [] {
      assert [] + e == e && d[0..] + e == e;
      AgreeReflexive(exact, Run(s, e));
    } else {
      var p := Step(s, d);
      if p.stop && p.used < |d| {
        assert Residue(s, d) == d;
        SplitRepresented(exact, s, d, e);
      } else if p.stop || s.pendingBytes > |d| {
        SplitResumed(exact, s, d, e);
      } else {
        var d' := d[p.used..];
        assert d'[Run(p.st, d').used..] == Residue(s, d);
        CutInTwo(exact, p.st, d', e);
        SplitAfterTurn(exact, s, d, e);
      }
    }
  }

  // ----- any number of cuts

  /** No read ends exactly behind a Type 1 or 2 header that would move the timestamp again. */
  ghost predicate NoBareCut(s: ParserState, d: seq<byte>, pieces: seq<seq<byte>>)
    requires s.Valid()
  {
    forall k :: 0 <= k < |pieces| ==> !BareDeltaHeader(Residue(s, d + Flatten(pieces[..k])))
  }

  lemma NoBareCutTail(s: ParserState, d: seq<byte>, pieces: seq<seq<byte>>)
    requires s.Valid() && pieces != [] && NoBareCut(s, d, pieces)
    ensures !BareDeltaHeader(Residue(s, d))
    ensures NoBareCut(s, d + pieces[0], pieces[1..])
  {
    hide Run, BareDeltaHeader;
    assert d + Flatten(pieces[..0]) == d;
    forall k | 0 <= k < |pieces[1..]|
      ensures !BareDeltaHeader(Residue(s, d + pieces[0] + Flatten(pieces[1..][..k])))
    {
      assert pieces[..k + 1][1..] == pieces[1..][..k];
      assert d + Flatten(pieces[..k + 1]) == d + pieces[0] + Flatten(pieces[1..][..k]);
    }
  }

  ghost predicate AgreeFeed(exact: bool, first: seq<Message>, f: FeedResult, s: ParserState, d: seq<byte>)
    requires s.Valid()
  {
    && Agree(exact, f.st, Run(s, d).st)
    && f.residue == Residue(s, d)
    && AgreeMessages(exact, first + f.out, Run(s, d).out)
  }

  lemma AgreeTransitive(exact: bool, a: RunResult, b: RunResult, c: RunResult)
    requires AgreeRun(exact, a, b) && AgreeRun(exact, b, c)
    ensures AgreeRun(exact, a, c)
  {}

  /** One more read on a parser that agrees with the one-call parser on everything read so far. */
  lemma FeedOne(exact: bool, s0: ParserState, d: seq<byte>, s: ParserState, piece: seq<byte>)
    requires s0.Valid() && s.Valid() && Agree(exact, s, Run(s0, d).st)
    requires exact ==> !BareDeltaHeader(Residue(s0, d))
    ensures var x := Residue(s0, d) + piece;
            var p := Run(s, x);
            && Agree(exact, p.st, Run(s0, d + piece).st)
            && x[p.used..] == Residue(s0, d + piece)
            && AgreeMessages(exact, Run(s0, d).out + p.out, Run(s0, d + piece).out)
  {
    hide Run, BareDeltaHeader;
    var first := Run(s0, d);
    var x := Residue(s0, d) + piece;
    var p := Run(s, x);
    var q := Run(first.st, x);
    if exact {
      ExactlyEqual(s, first.st);
      AgreeReflexive(exact, p);
    } else {
      RunAgrees(s, first.st, x);
    }
    CutInTwo(exact, s0, d, piece);
    TurnsAgree(exact, StepResult(first.st, first.used, first.out, false), StepResult(first.st, first.used, first.out, false), p, q);
    AgreeTransitive(exact, RunResult(p.st, first.used + p.used, first.out + p.out),
                    RunResult(q.st, first.used + q.used, first.out + q.out), Run(s0, d + piece));
    assert (d + piece)[first.used + p.used..] == x[p.used..];
  }

  lemma {:induction false} FeedFrom(exact: bool, s0: ParserState, d: seq<byte>, s: ParserState, pieces: seq<seq<byte>>)
    requires s0.Valid() && s.Valid() && Agree(exact, s, Run(s0, d).st)
    requires exact ==> NoBareCut(s0, d, pieces)
    ensures AgreeFeed(exact, Run(s0, d).out, Feed(s, Residue(s0, d), pieces), s0, d + Flatten(pieces))
    decreases |pieces|
  {
    hide Run, BareDeltaHeader;
    var first := Run(s0, d).out;
    if pieces == [] {
      assert d + Flatten(pieces) == d && first + [] == first;
    } else {
      if exact {
        NoBareCutTail(s0, d, pieces);
      }
      var d' := d + pieces[0];
      FeedOne(exact, s0, d, s, pieces[0]);
      var p := Run(s, Residue(s0, d) + pieces[0]);
      FeedFrom(exact, s0, d', p.st, pieces[1..]);
      assert d' + Flatten(pieces[1..]) == d + Flatten(pieces);
      var f := Feed(p.st, Residue(s0, d'), pieces[1..]);
      assert first + (p.out + f.out) == (first + p.out) + f.out;
    }
  }

  /**
   Fragmentation invariance. However the bytes are cut into reads, the messages completed, the
   bytes left over and the final state of the parser are those of one call on all the bytes:
   exactly, if no read ends right behind a bare Type 1 or 2 header, and up to timestamps in any case.
   */
  lemma FragmentationInvariance(exact: bool, s: ParserState, pieces: seq<seq<byte>>)
    requires s.Valid()
    requires exact ==> NoBareCut(s, [], pieces)
    ensures var f := Feed(s, [], pieces);
            var whole := Run(s, Flatten(pieces));
            && Agree(exact, f.st, whole.st)
            && AgreeMessages(exact, f.out, whole.out)
            && f.residue == Flatten(pieces)[whole.used..]
  {
    var f := Feed(s, [], pieces);
    assert Residue(s, []) == [] && [] + Flatten(pieces) == Flatten(pieces) && [] + f.out == f.out;
    AgreeReflexive(exact, Run(s, []));
    FeedFrom(exact, s, [], s, pieces);
  }

  // ----- streams of Type 0 and Type 3 chunks

  /** Every chunk header the parser meets in `d` is of Type 0 or Type 3. */
  ghost predicate FullOrContinuation(s: ParserState, d: seq<byte>)
    requires s.Valid()
    decreases |d|
  {
    d == [] ||
    (&& (s.Idle() && ReadBasicHeader(d).Basic? ==> ReadBasicHeader(d).fmt == 0 || ReadBasicHeader(d).fmt == 3)
     && var p := Step(s, d);
        (!p.stop ==> FullOrContinuation(p.st, d[p.used..])))
  }

  lemma {:induction false} FullOrContinuationPrefix(s: ParserState, d: seq<byte>, e: seq<byte>)
    requires s.Valid() && FullOrContinuation(s, d + e)
    ensures FullOrContinuation(s, d) && !BareDeltaHeader(Residue(s, d))
    decreases |d|
  {
    hide StepChunk, StepPending;
    if d != [] {
      var p := Step(s, d);
      if s.Idle() && ReadBasicHeader(d).Basic? {
        BasicExtends(d, e);
      }
      if !p.stop && s.pendingBytes <= |d| {
        StepExtends(s, d, e);
        var d' := d[p.used..];
        assert (d + e)[p.used..] == d' + e;
        FullOrContinuationPrefix(p.st, d', e);
        assert Residue(s, d) == Residue(p.st, d');
      } else {
        StoppedResidue(s, d);
      }
    }
  }

  lemma StoppedResidue(s: ParserState, d: seq<byte>)
    requires s.Valid() && d != [] && (Step(s, d).stop || |d| < s.pendingBytes)
    ensures Residue(s, d) == [] || (s.Idle() && Residue(s, d) == d)
    ensures !Step(s, d).stop ==> d[Step(s, d).used..] == []
  {}

  /** Streams of Type 0 and 3 chunks, the only ones the server's own writer emits, can be cut anywhere. */
  lemma FragmentationOfFullChunks(s: ParserState, pieces: seq<seq<byte>>)
    requires s.Valid() && FullOrContinuation(s, Flatten(pieces))
    ensures var f := Feed(s, [], pieces);
            var whole := Run(s, Flatten(pieces));
            f == FeedResult(whole.st, Residue(s, Flatten(pieces)), whole.out)
  {
    hide Run, FullOrContinuation, BareDeltaHeader;
    forall k | 0 <= k < |pieces|
      ensures !BareDeltaHeader(Residue(s, [] + Flatten(pieces[..k])))
    {
      FlattenAppend(pieces[..k], pieces[k..]);
      assert pieces[..k] + pieces[k..] == pieces && [] + Flatten(pieces[..k]) == Flatten(pieces[..k]);
      FullOrContinuationPrefix(s, Flatten(pieces[..k]), Flatten(pieces[k..]));
    }
    FragmentationInvariance(true, s, pieces);
  }
}
