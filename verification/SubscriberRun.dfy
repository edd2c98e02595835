/** Whole runs of a subscriber's queue: what reaches the subscriber, and that nothing is lost unaccounted. */
module SubscriberRun {
  import opened Bytes
  import opened Media
  import opened SubscriberBuffer

  datatype Op = Push(frame: Frame) | Pop | SetConfig(config: Config)

  /** The queue after a run, with the frames popped in its course. */
  datatype RunState = RunState(s: State, popped: seq<Frame>)

  function Apply(r: RunState, op: Op): RunState {
    match op
    case Push(frame) => r.(s := Pushed(r.s, frame))
    case Pop => if r.s.frames == [] then r else RunState(Popped(r.s), r.popped + [r.s.frames[0]])
    case SetConfig(config) => r.(s := Configured(r.s, config))
  }

  function ApplyAll(r: RunState, ops: seq<Op>): RunState
    decreases |ops|
  {
    if ops == [] then r else ApplyAll(Apply(r, ops[0]), ops[1..])
  }

  function PushedFrames(ops: seq<Op>): seq<Frame> {
    if ops == [] then []
    else (if ops[0].Push? then [ops[0].frame] else []) + PushedFrames(ops[1..])
  }

  function Fresh(config: Config): RunState {
    RunState(State([], 0, NO_STATISTICS, config), [])
  }

  /** Video inter frames, and audio frames too if audio is not protected. */
  predicate Losable(f: Frame, audio: bool) {
    (f.kind == Video && !f.isKeyframe) || (audio && f.kind == Audio)
  }

  /** `sub` is `all` with some losable frames left out, order kept. */
  predicate Omits(sub: seq<Frame>, all: seq<Frame>, audio: bool) {
    if all == [] then sub == []
    else (sub != [] && sub[0] == all[0] && Omits(sub[1..], all[1..], audio))
         || (Losable(all[0], audio) && Omits(sub, all[1..], audio))
  }

  lemma OmitsKeep(sub: seq<Frame>, all: seq<Frame>, audio: bool)
    requires sub != [] && all != [] && sub[0] == all[0] && Omits(sub[1..], all[1..], audio)
    ensures Omits(sub, all, audio)
  {}

  lemma OmitsSkip(sub: seq<Frame>, all: seq<Frame>, audio: bool)
    requires all != [] && Losable(all[0], audio) && Omits(sub, all[1..], audio)
    ensures Omits(sub, all, audio)
  {}

  lemma {:induction false} OmitsAppend(sub: seq<Frame>, all: seq<Frame>, f: Frame, audio: bool)
    requires Omits(sub, all, audio)
    ensures Omits(sub + [f], all + [f], audio)
    ensures Losable(f, audio) ==> Omits(sub, all + [f], audio)
    decreases |all|
  {
    hide Losable;
    if all == [] {
      assert (all + [f])[1..] == [] && (sub + [f])[1..] == [];
    } else {
      assert (all + [f])[1..] == all[1..] + [f] && (all + [f])[0] == all[0];
      if sub != [] && sub[0] == all[0] && Omits(sub[1..], all[1..], audio) {
        hide Omits;
        assert (sub + [f])[1..] == sub[1..] + [f] && (sub + [f])[0] == sub[0];
        OmitsAppend(sub[1..], all[1..], f, audio);
        OmitsKeep(sub + [f], all + [f], audio);
        if Losable(f, audio) { OmitsKeep(sub, all + [f], audio); }
      } else {
        OmitsAppend(sub, all[1..], f, audio);
        OmitsSkip(sub + [f], all + [f], audio);
        if Losable(f, audio) { OmitsSkip(sub, all + [f], audio); }
      }
    }
  }

  /** The frames a run may not lose. */
  function Essential(frames: seq<Frame>, audio: bool): seq<Frame> {
    if frames == [] then []
    else (if Losable(frames[0], audio) then [] else [frames[0]]) + Essential(frames[1..], audio)
  }

  /** Nothing essential is left out, doubled or moved. */
  lemma {:induction false} OmitsKeepsEssential(sub: seq<Frame>, all: seq<Frame>, audio: bool)
    requires Omits(sub, all, audio)
    ensures Essential(sub, audio) == Essential(all, audio)
    decreases |all|
  {
    hide Losable;
    if all != [] {
      if sub != [] && sub[0] == all[0] && Omits(sub[1..], all[1..], audio) {
        OmitsKeepsEssential(sub[1..], all[1..], audio);
      } else {
        OmitsKeepsEssential(sub, all[1..], audio);
      }
    }
  }

  /** Leaving out one more losable frame. */
  lemma {:induction false} OmitsLess(sub: seq<Frame>, all: seq<Frame>, i: nat, audio: bool)
    requires Omits(sub, all, audio) && i < |sub| && Losable(sub[i], audio)
    ensures Omits(sub[..i] + sub[i + 1..], all, audio)
    decreases |all|
  {
    hide Losable;
    if sub[0] == all[0] && Omits(sub[1..], all[1..], audio) {
      hide Omits;
      if i == 0 {
        OmitsSkip(sub[1..], all, audio);
        assert sub[..0] + sub[1..] == sub[1..];
      } else {
        OmitsLess(sub[1..], all[1..], i - 1, audio);
        TailWithout(sub, i);
        OmitsKeep(sub[..i] + sub[i + 1..], all, audio);
      }
    } else {
      OmitsLess(sub, all[1..], i, audio);
      hide Omits;
      OmitsSkip(sub[..i] + sub[i + 1..], all, audio);
    }
  }

  lemma TailWithout(sub: seq<Frame>, i: nat)
    requires 0 < i < |sub|
    ensures var less := sub[..i] + sub[i + 1..];
            less[0] == sub[0] && less[1..] == sub[1..][..i - 1] + sub[1..][i..]
  {}

  /** Overflow handling leaves out losable frames only, behind any prefix. */
  lemma {:induction false} DroppingOmits(config: Config, front: seq<Frame>, frames: seq<Frame>, k: nat, all: seq<Frame>, audio: bool)
    requires Omits(front + frames, all, audio) && (config.preserveAudio || audio)
    ensures Omits(front + WithoutOldest(config, frames, k), all, audio)
    decreases |frames|
  {
    hide Omits;
    if k != 0 && frames != [] {
      if Droppable(config, frames[0]) {
        OmitsLess(front + frames, all, |front|, audio);
        assert (front + frames)[..|front|] + (front + frames)[|front| + 1..] == front + frames[1..];
        DroppingOmits(config, front, frames[1..], k - 1, all, audio);
      } else {
        assert front + frames == (front + [frames[0]]) + frames[1..];
        DroppingOmits(config, front + [frames[0]], frames[1..], k, all, audio);
        assert front + ([frames[0]] + WithoutOldest(config, frames[1..], k))
            == (front + [frames[0]]) + WithoutOldest(config, frames[1..], k);
      }
    }
  }

  /** How many of the frames are video inter frames, or audio frames. */
  function Count(frames: seq<Frame>, kind: MediaType): nat {
    if frames == [] then 0
    else (if frames[0].kind == kind && !IsVideoKey(frames[0]) then 1 else 0) + Count(frames[1..], kind)
  }

  lemma {:induction false} CountAppend(a: seq<Frame>, b: seq<Frame>, kind: MediaType)
    ensures Count(a + b, kind) == Count(a, kind) + Count(b, kind)
  {
    hide IsVideoKey;
    if a == [] {
      assert a + b == b;
    } else {
      assert (a + b)[1..] == a[1..] + b;
      CountAppend(a[1..], b, kind);
    }
  }

  lemma CountsAppend(a: seq<Frame>, f: Frame)
    ensures Count(a + [f], Video) == Count(a, Video) + (if f.kind == Video && !f.isKeyframe then 1 else 0)
    ensures Count(a + [f], Audio) == Count(a, Audio) + (if f.kind == Audio then 1 else 0)
  {
    CountAppend(a, [f], Video);
    CountAppend(a, [f], Audio);
    assert [f][1..] == [] && Count([], Video) == 0 && Count([], Audio) == 0;
  }

  /** The books after the frames `all` were pushed and `popped` popped, kind by kind. */
  ghost predicate Accounted(s: State, popped: seq<Frame>, all: seq<Frame>) {
    && Valid(s)
    && s.statistics.totalFramesProcessed == |all| == |popped| + |s.frames| + s.statistics.Dropped()
    && s.statistics.totalBytesProcessed == Size(all) == Size(popped) + s.bufferedBytes + s.statistics.totalDroppedBytes
    && Count(all, Video) == Count(popped, Video) + Count(s.frames, Video) + s.statistics.droppedInterFrames
    && Count(all, Audio) == Count(popped, Audio) + Count(s.frames, Audio) + s.statistics.droppedAudioFrames
    && s.statistics.droppedKeyframes == 0
  }

  ghost predicate Delivers(r: RunState, all: seq<Frame>, audio: bool) {
    Omits(r.popped + r.s.frames, all, audio) && Accounted(r.s, r.popped, all)
  }

  lemma {:induction false} DroppedBooks(config: Config, frames: seq<Frame>, k: nat, s: Statistics)
    requires k <= DroppableCount(config, frames)
    ensures |frames| == |WithoutOldest(config, frames, k)| + k
    ensures Size(frames) == Size(WithoutOldest(config, frames, k)) + Size(Oldest(config, frames, k))
    ensures var t := RecordAll(s, Oldest(config, frames, k));
            && t.Dropped() == s.Dropped() + k && t.droppedKeyframes == s.droppedKeyframes
            && t.totalDroppedBytes == s.totalDroppedBytes + Size(Oldest(config, frames, k))
            && t.totalFramesProcessed == s.totalFramesProcessed && t.totalBytesProcessed == s.totalBytesProcessed
    decreases |frames|
  {
    if k > 0 {
      if Droppable(config, frames[0]) {
        var later := Oldest(config, frames[1..], k - 1);
        assert ([frames[0]] + later)[1..] == later;
        DroppedBooks(config, frames[1..], k - 1, Record(s, frames[0]));
      } else {
        DroppedBooks(config, frames[1..], k, s);
        var rest := WithoutOldest(config, frames[1..], k);
        assert ([frames[0]] + rest)[1..] == rest;
      }
    }
  }

  lemma {:induction false} DroppedKinds(config: Config, frames: seq<Frame>, k: nat, s: Statistics)
    requires k <= DroppableCount(config, frames)
    ensures var t, left := RecordAll(s, Oldest(config, frames, k)), WithoutOldest(config, frames, k);
            && Count(frames, Video) == Count(left, Video) + t.droppedInterFrames - s.droppedInterFrames
            && Count(frames, Audio) == Count(left, Audio) + t.droppedAudioFrames - s.droppedAudioFrames
    decreases |frames|
  {
    if k > 0 {
      if Droppable(config, frames[0]) {
        var later := Oldest(config, frames[1..], k - 1);
        assert ([frames[0]] + later)[1..] == later;
        DroppedKinds(config, frames[1..], k - 1, Record(s, frames[0]));
      } else {
        DroppedKinds(config, frames[1..], k, s);
        var rest := WithoutOldest(config, frames[1..], k);
        assert ([frames[0]] + rest)[1..] == rest;
      }
    }
  }

  lemma DropsBounded(config: Config, frames: seq<Frame>)
    ensures Drops(config, frames) <= DroppableCount(config, frames)
  {
    if |frames| > 1 {
      GreedyIsLeast(config, frames);
    }
  }

  lemma EnforcedDelivers(r: RunState, all: seq<Frame>, audio: bool)
    requires Delivers(r, all, audio) && (r.s.config.preserveAudio || audio)
    ensures Delivers(r.(s := Enforced(r.s)), all, audio)
  {
    hide Omits, Size, Drops, Count;
    var k := Drops(r.s.config, r.s.frames);
    DropsBounded(r.s.config, r.s.frames);
    DroppedBooks(r.s.config, r.s.frames, k, r.s.statistics);
    DroppedKinds(r.s.config, r.s.frames, k, r.s.statistics);
    DroppingOmits(r.s.config, r.popped, r.s.frames, k, all, audio);
  }

  lemma RefusedIsLosable(s: State, f: Frame, audio: bool)
    ensures Refused(s, f) ==> f.kind == Video && !f.isKeyframe && Losable(f, audio)
  {}

  /** The books of a frame that enters, and of a video inter frame that is refused. */
  lemma BooksPush(s: State, popped: seq<Frame>, all: seq<Frame>, f: Frame)
    requires Accounted(s, popped, all)
    ensures var stats := s.statistics.(totalFramesProcessed := s.statistics.totalFramesProcessed + 1,
                                       totalBytesProcessed := s.statistics.totalBytesProcessed + |f.data|);
            && Accounted(s.(frames := s.frames + [f], bufferedBytes := s.bufferedBytes + |f.data|, statistics := stats), popped, all + [f])
            && (f.kind == Video && !f.isKeyframe ==> Accounted(s.(statistics := Record(stats, f)), popped, all + [f]))
  {
    SizeAppend(all, [f]);
    SizeAppend(s.frames, [f]);
    SizeOne(f);
    CountsAppend(all, f);
    CountsAppend(s.frames, f);
    hide Size, Count;
  }

  lemma PushDelivers(r: RunState, all: seq<Frame>, f: Frame, audio: bool)
    requires Delivers(r, all, audio) && (r.s.config.preserveAudio || audio)
    ensures Delivers(r.(s := Pushed(r.s, f)), all + [f], audio)
  {
    hide Omits, Span, Enforced, Refused, Losable, Accounted, Record;
    RefusedIsLosable(r.s, f, audio);
    OmitsAppend(r.popped + r.s.frames, all, f, audio);
    BooksPush(r.s, r.popped, all, f);
    assert r.popped + r.s.frames + [f] == r.popped + (r.s.frames + [f]);
    if !Refused(r.s, f) {
      var stats := r.s.statistics.(totalFramesProcessed := r.s.statistics.totalFramesProcessed + 1,
                                   totalBytesProcessed := r.s.statistics.totalBytesProcessed + |f.data|);
      var s1 := r.s.(frames := r.s.frames + [f], bufferedBytes := r.s.bufferedBytes + |f.data|, statistics := stats);
      EnforcedDelivers(r.(s := s1), all + [f], audio);
    }
  }

  lemma PopDelivers(r: RunState, all: seq<Frame>, audio: bool)
    requires Delivers(r, all, audio) && r.s.frames != []
    ensures Delivers(RunState(Popped(r.s), r.popped + [r.s.frames[0]]), all, audio)
  {
    hide Omits;
    var f := r.s.frames[0];
    SizeAppend(r.popped, [f]);
    CountsAppend(r.popped, f);
    assert [f][1..] == [] && r.popped + [f] + r.s.frames[1..] == r.popped + r.s.frames;
  }

  /** Audio is protected throughout a run, or losing it is allowed for. */
  ghost predicate Protects(config: Config, ops: seq<Op>, audio: bool) {
    audio || (config.preserveAudio && forall op :: op in ops && op.SetConfig? ==> op.config.preserveAudio)
  }

  lemma {:induction false} RunDelivers(r: RunState, before: seq<Frame>, ops: seq<Op>, audio: bool)
    requires Delivers(r, before, audio) && Protects(r.s.config, ops, audio)
    ensures Delivers(ApplyAll(r, ops), before + PushedFrames(ops), audio)
    decreases |ops|
  {
    hide Delivers, Pushed, Popped, Configured;
    if ops == [] {
      assert before + [] == before;
    } else {
      var op := ops[0];
      assert op in ops;
      match op {
        case Push(f) =>
          PushDelivers(r, before, f, audio);
          PushKeepsConfig(r.s, f);
          RunDelivers(Apply(r, op), before + [f], ops[1..], audio);
          assert before + ([f] + PushedFrames(ops[1..])) == (before + [f]) + PushedFrames(ops[1..]);
        case Pop =>
          if r.s.frames != [] {
            PopDelivers(r, before, audio);
            PopKeepsConfig(r.s);
          }
          RunDelivers(Apply(r, op), before, ops[1..], audio);
          assert [] + PushedFrames(ops[1..]) == PushedFrames(ops[1..]);
        case SetConfig(config) =>
          ConfigureDelivers(r, before, config, audio);
          RunDelivers(Apply(r, op), before, ops[1..], audio);
          assert [] + PushedFrames(ops[1..]) == PushedFrames(ops[1..]);
      }
    }
  }

  lemma PushKeepsConfig(s: State, f: Frame)
    ensures Pushed(s, f).config == s.config
  {
    hide Refused;
  }

  lemma PopKeepsConfig(s: State)
    requires s.frames != []
    ensures Popped(s).config == s.config
  {}

  lemma ConfigureDelivers(r: RunState, all: seq<Frame>, config: Config, audio: bool)
    requires Delivers(r, all, audio) && (config.preserveAudio || audio)
    ensures Delivers(r.(s := Configured(r.s, config)), all, audio)
    ensures Configured(r.s, config).config == config
  {
    hide Omits;
    EnforcedDelivers(r.(s := r.s.(config := config)), all, audio);
  }

  lemma NothingOmitted(audio: bool)
    ensures Omits([], [], audio)
  {}

  lemma NothingDroppedYet(t: Statistics)
    requires t == NO_STATISTICS
    ensures t.totalFramesProcessed == t.totalBytesProcessed == t.totalDroppedBytes == 0
    ensures t.Dropped() == t.droppedInterFrames == t.droppedKeyframes == t.droppedAudioFrames == 0
  {}

  lemma BooksOpen(s: State, none: seq<Frame>)
    requires |s.frames| == |none| == 0 && s.bufferedBytes == 0 && s.statistics == NO_STATISTICS
    ensures Accounted(s, none, none)
  {
    hide Statistics.Dropped, NO_STATISTICS;
    NothingDroppedYet(s.statistics);
  }

  lemma FreshDelivers(config: Config, audio: bool)
    ensures Delivers(Fresh(config), [], audio)
  {
    var none: seq<Frame> := [];
    NothingOmitted(audio);
    BooksOpen(Fresh(config).s, none);
    hide Omits, Accounted;
    assert none + none == none;
  }

  /**
   Over any run of pushes, pops and reconfigurations: the frames popped, followed by those still
   queued, are the frames pushed, in order, with only video inter frames left out, and audio
   frames if some configuration did not preserve them. Frames and bytes processed are those
   popped, pending and dropped.
   */
  lemma DeliveryAndConservation(config: Config, ops: seq<Op>)
    ensures var r := ApplyAll(Fresh(config), ops);
            && Omits(r.popped + r.s.frames, PushedFrames(ops), !Protects(config, ops, false))
            && Essential(r.popped + r.s.frames, !Protects(config, ops, false))
                 == Essential(PushedFrames(ops), !Protects(config, ops, false))
            && Accounted(r.s, r.popped, PushedFrames(ops))
  {
    hide ApplyAll, PushedFrames, Essential, Omits;
    var audio := !Protects(config, ops, false);
    assert Delivers(Fresh(config), [], audio) by {
      FreshDelivers(config, audio);
    }
    RunDelivers(Fresh(config), [], ops, audio);
    assert [] + PushedFrames(ops) == PushedFrames(ops);
    var r := ApplyAll(Fresh(config), ops);
    OmitsKeepsEssential(r.popped + r.s.frames, PushedFrames(ops), audio);
  }

  // ----- audio, step by step

  lemma {:induction false} OmitsNothing(frames: seq<Frame>, audio: bool)
    ensures Omits(frames, frames, audio)
    decreases |frames|
  {
    if frames != [] {
      OmitsNothing(frames[1..], audio);
    }
  }

  lemma {:induction false} OmitsTransitive(a: seq<Frame>, b: seq<Frame>, c: seq<Frame>, audio: bool)
    requires Omits(a, b, audio) && Omits(b, c, audio)
    ensures Omits(a, c, audio)
    decreases |c|
  {
    hide Losable;
    if c != [] {
      if b != [] && b[0] == c[0] && Omits(b[1..], c[1..], audio) {
        if a != [] && a[0] == b[0] && Omits(a[1..], b[1..], audio) {
          OmitsTransitive(a[1..], b[1..], c[1..], audio);
          OmitsKeep(a, c, audio);
        } else {
          OmitsTransitive(a, b[1..], c[1..], audio);
          OmitsSkip(a, c, audio);
        }
      } else {
        OmitsTransitive(a, b, c[1..], audio);
        OmitsSkip(a, c, audio);
      }
    }
  }

  lemma {:induction false} OmitsAppendAll(sub: seq<Frame>, all: seq<Frame>, more: seq<Frame>, audio: bool)
    requires Omits(sub, all, audio)
    ensures Omits(sub + more, all + more, audio)
    decreases |more|
  {
    hide Omits;
    if more == [] {
      assert sub + more == sub && all + more == all;
    } else {
      OmitsAppend(sub, all, more[0], audio);
      OmitsAppendAll(sub + [more[0]], all + [more[0]], more[1..], audio);
      assert sub + [more[0]] + more[1..] == sub + more && all + [more[0]] + more[1..] == all + more;
    }
  }

  /** All frames of the run so far that have not been lost: those popped, then those queued. */
  function Kept(r: RunState): seq<Frame> {
    r.popped + r.s.frames
  }

  lemma EnforcedKeeps(popped: seq<Frame>, s: State)
    ensures Omits(popped + Enforced(s).frames, popped + s.frames, !s.config.preserveAudio)
  {
    hide Omits, Drops;
    OmitsNothing(popped + s.frames, !s.config.preserveAudio);
    DroppingOmits(s.config, popped, s.frames, Drops(s.config, s.frames), popped + s.frames, !s.config.preserveAudio);
  }

  /** One step loses audio frames only if the configuration then in force does not preserve them. */
  lemma StepKeepsAudio(r: RunState, op: Op)
    ensures var t := Apply(r, op);
            Omits(Kept(t), Kept(r) + PushedFrames([op]), !t.s.config.preserveAudio)
  {
    hide Omits, Enforced, Refused, Losable;
    assert [op][1..] == [];
    match op
    case Push(f) =>
      assert PushedFrames([op]) == [f];
      var queued := r.s.frames + [f];
      assert Kept(r) + [f] == r.popped + queued;
      PushKeepsConfig(r.s, f);
      if Refused(r.s, f) {
        RefusedIsLosable(r.s, f, !r.s.config.preserveAudio);
        OmitsNothing(Kept(r), !r.s.config.preserveAudio);
        OmitsAppend(Kept(r), Kept(r), f, !r.s.config.preserveAudio);
      } else {
        var stats := r.s.statistics.(totalFramesProcessed := r.s.statistics.totalFramesProcessed + 1,
                                     totalBytesProcessed := r.s.statistics.totalBytesProcessed + |f.data|);
        EnforcedKeeps(r.popped, r.s.(frames := queued, bufferedBytes := r.s.bufferedBytes + |f.data|, statistics := stats));
      }
    case Pop =>
      assert PushedFrames([op]) == [] && Kept(r) + [] == Kept(r);
      OmitsNothing(Kept(r), !r.s.config.preserveAudio);
      if r.s.frames != [] {
        assert r.popped + [r.s.frames[0]] + r.s.frames[1..] == Kept(r);
      }
    case SetConfig(config) =>
      assert PushedFrames([op]) == [] && Kept(r) + [] == Kept(r);
      EnforcedKeeps(r.popped, r.s.(config := config));
      ConfigureSets(r.s, config);
  }

  lemma ConfigureSets(s: State, config: Config)
    ensures Configured(s, config).config == config
  {}

  lemma StepConfig(r: RunState, op: Op)
    ensures Apply(r, op).s.config == if op.SetConfig? then op.config else r.s.config
  {
    hide Enforced, Refused;
    match op
    case Push(f) => PushKeepsConfig(r.s, f);
    case Pop =>
    case SetConfig(config) => ConfigureSets(r.s, config);
  }

  /**
   From any point of a run on, for as long as every configuration preserves audio, nothing of what is then popped or
   queued, or pushed later, is lost but video inter frames, whatever configurations came before or come after.
   */
  lemma {:induction false} AudioKeptWhileProtected(r: RunState, ops: seq<Op>)
    requires Protects(r.s.config, ops, false)
    ensures Omits(Kept(ApplyAll(r, ops)), Kept(r) + PushedFrames(ops), false)
    ensures Essential(Kept(ApplyAll(r, ops)), false) == Essential(Kept(r) + PushedFrames(ops), false)
    decreases |ops|
  {
    hide Omits, Apply, Essential, Kept;
    if ops == [] {
      assert Kept(r) + [] == Kept(r);
      OmitsNothing(Kept(r), false);
    } else {
      var op, t := ops[0], Apply(r, ops[0]);
      assert op in ops && forall o :: o in ops[1..] ==> o in ops;
      StepConfig(r, op);
      StepKeepsAudio(r, op);
      AudioKeptWhileProtected(t, ops[1..]);
      var first, later := PushedFrames([op]), PushedFrames(ops[1..]);
      PushedSplit(ops);
      OmitsAppendAll(Kept(t), Kept(r) + first, later, false);
      OmitsTransitive(Kept(ApplyAll(t, ops[1..])), Kept(t) + later, (Kept(r) + first) + later, false);
      assert (Kept(r) + first) + later == Kept(r) + (first + later);
    }
    OmitsKeepsEssential(Kept(ApplyAll(r, ops)), Kept(r) + PushedFrames(ops), false);
  }

  lemma PushedSplit(ops: seq<Op>)
    requires ops != []
    ensures PushedFrames(ops) == PushedFrames([ops[0]]) + PushedFrames(ops[1..])
  {
    assert [ops[0]][1..] == [];
    assert PushedFrames([]) == [];
  }
}
