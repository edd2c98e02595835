/** A subscriber's queue: first in, first out, with inter frames dropped when it spans too much time. */
module SubscriberBuffer {
  import opened Bytes
  import opened Media

  datatype Config = Config(maxBufferDuration: int, maxBufferSize: nat, preserveAudio: bool)

  datatype Statistics = Statistics(
    droppedInterFrames: nat,
    droppedKeyframes: nat,
    droppedAudioFrames: nat,
    totalDroppedBytes: nat,
    totalFramesProcessed: nat,
    totalBytesProcessed: nat)
  {
    function Dropped(): nat {
      droppedInterFrames + droppedKeyframes + droppedAudioFrames
    }
  }

  const NO_STATISTICS: Statistics := Statistics(0, 0, 0, 0, 0, 0)

  datatype State = State(frames: seq<Frame>, bufferedBytes: nat, statistics: Statistics, config: Config)

  // ----- dropping

  predicate Droppable(config: Config, f: Frame) {
    !IsVideoKey(f) && !(config.preserveAudio && f.kind == Audio) && f.kind != Data
  }

  function DroppableCount(config: Config, frames: seq<Frame>): nat {
    if frames == [] then 0 else (if Droppable(config, frames[0]) then 1 else 0) + DroppableCount(config, frames[1..])
  }

  /** The queue without its `k` oldest droppable frames. */
  function WithoutOldest(config: Config, frames: seq<Frame>, k: nat): seq<Frame> {
    if k == 0 || frames == [] then frames
    else if Droppable(config, frames[0]) then WithoutOldest(config, frames[1..], k - 1)
    else [frames[0]] + WithoutOldest(config, frames[1..], k)
  }

  /** The `k` oldest droppable frames. */
  function Oldest(config: Config, frames: seq<Frame>, k: nat): seq<Frame> {
    if k == 0 || frames == [] then []
    else if Droppable(config, frames[0]) then [frames[0]] + Oldest(config, frames[1..], k - 1)
    else Oldest(config, frames[1..], k)
  }

  /** The span, with the `k` oldest droppable frames gone, is within the limit. */
  predicate Fits(config: Config, frames: seq<Frame>, k: nat) {
    Span(WithoutOldest(config, frames, k)) <= config.maxBufferDuration
  }

  /** The first number from `k` on of droppable frames whose removal suffices, or all there are. */
  function DropsFrom(config: Config, frames: seq<Frame>, k: nat): nat
    requires k <= DroppableCount(config, frames)
    decreases DroppableCount(config, frames) - k
  {
    if k == DroppableCount(config, frames) || Fits(config, frames, k) then k else DropsFrom(config, frames, k + 1)
  }

  /** How many frames overflow handling drops; a single frame is never looked at. */
  function Drops(config: Config, frames: seq<Frame>): nat {
    if |frames| <= 1 then 0 else DropsFrom(config, frames, 0)
  }

  lemma {:induction false} DropsFromLeast(config: Config, frames: seq<Frame>, k: nat)
    requires k <= DroppableCount(config, frames)
    requires forall j :: 0 <= j < k ==> !Fits(config, frames, j)
    ensures var n := DropsFrom(config, frames, k);
            && k <= n <= DroppableCount(config, frames)
            && (forall j :: 0 <= j < n ==> !Fits(config, frames, j))
            && (n < DroppableCount(config, frames) ==> Fits(config, frames, n))
    decreases DroppableCount(config, frames) - k
  {
    hide Fits;
    if !(k == DroppableCount(config, frames) || Fits(config, frames, k)) {
      DropsFromLeast(config, frames, k + 1);
    }
  }

  /**
   Overflow dropping is greedy and minimal: the frames that go are the oldest droppable ones, and
   their number is the least whose removal brings the span within the limit, or all of them if
   none does.
   */
  lemma GreedyIsLeast(config: Config, frames: seq<Frame>)
    requires |frames| > 1
    ensures var n := Drops(config, frames);
            && n <= DroppableCount(config, frames)
            && (forall j :: 0 <= j < n ==> !Fits(config, frames, j))
            && (n < DroppableCount(config, frames) ==> Fits(config, frames, n))
  {
    DropsFromLeast(config, frames, 0);
  }

  lemma {:induction false} WithoutOldestSplits(config: Config, frames: seq<Frame>, i: nat, k: nat)
    requires i < |frames| && Droppable(config, frames[i])
    requires forall j :: 0 <= j < i ==> !Droppable(config, frames[j])
    ensures WithoutOldest(config, frames, k + 1) == WithoutOldest(config, frames[..i] + frames[i + 1..], k)
    ensures Oldest(config, frames, k + 1) == [frames[i]] + Oldest(config, frames[..i] + frames[i + 1..], k)
    ensures DroppableCount(config, frames) == 1 + DroppableCount(config, frames[..i] + frames[i + 1..])
    decreases i
  {
    hide Droppable;
    var less := frames[..i] + frames[i + 1..];
    if i == 0 {
      assert less == frames[1..];
    } else {
      assert frames[1..][..i - 1] + frames[1..][i..] == less[1..];
      assert less[0] == frames[0] && !Droppable(config, frames[0]);
      WithoutOldestSplits(config, frames[1..], i - 1, k);
      if k == 0 {
        assert WithoutOldest(config, less, 0) == [frames[0]] + less[1..];
      }
    }
  }

  lemma {:induction false} NoneDroppable(config: Config, frames: seq<Frame>)
    requires forall j :: 0 <= j < |frames| ==> !Droppable(config, frames[j])
    ensures DroppableCount(config, frames) == 0
  {
    hide Droppable;
    if frames != [] {
      NoneDroppable(config, frames[1..]);
    }
  }

  // ----- statistics

  function Record(s: Statistics, f: Frame): Statistics {
    var t := s.(totalDroppedBytes := s.totalDroppedBytes + |f.data|);
    if f.kind == Video then
      if f.isKeyframe then t.(droppedKeyframes := s.droppedKeyframes + 1)
      else t.(droppedInterFrames := s.droppedInterFrames + 1)
    else if f.kind == Audio then t.(droppedAudioFrames := s.droppedAudioFrames + 1)
    else t
  }

  function RecordAll(s: Statistics, fs: seq<Frame>): Statistics
    decreases |fs|
  {
    if fs == [] then s else RecordAll(Record(s, fs[0]), fs[1..])
  }

  // ----- the operations

  /** The queue after overflow handling. */
  function Enforced(s: State): State {
    var k := Drops(s.config, s.frames);
    var gone := Oldest(s.config, s.frames, k);
    State(WithoutOldest(s.config, s.frames, k),
          if Size(gone) <= s.bufferedBytes then s.bufferedBytes - Size(gone) else 0,
          RecordAll(s.statistics, gone), s.config)
  }

  /** A frame that does not even enter: a video inter frame while the queue is over a limit. */
  predicate Refused(s: State, f: Frame) {
    && f.kind == Video && !f.isKeyframe
    && (Span(s.frames) > s.config.maxBufferDuration
        || (s.config.maxBufferSize > 0 && s.bufferedBytes > s.config.maxBufferSize))
  }

  function Pushed(s: State, f: Frame): State {
    var stats := s.statistics.(totalFramesProcessed := s.statistics.totalFramesProcessed + 1,
                               totalBytesProcessed := s.statistics.totalBytesProcessed + |f.data|);
    if Refused(s, f) then s.(statistics := Record(stats, f))
    else Enforced(s.(frames := s.frames + [f], bufferedBytes := s.bufferedBytes + |f.data|, statistics := stats))
  }

  function Popped(s: State): State
    requires s.frames != []
  {
    s.(frames := s.frames[1..],
       bufferedBytes := if |s.frames[0].data| <= s.bufferedBytes then s.bufferedBytes - |s.frames[0].data| else 0)
  }

  function Configured(s: State, config: Config): State {
    Enforced(s.(config := config))
  }

  /** The byte count is the size of the queue, so the subtractions above never reach below zero. */
  predicate Valid(s: State) {
    s.bufferedBytes == Size(s.frames)
  }

  // ----- who is let in

  lemma NothingToDrop(config: Config, frames: seq<Frame>)
    requires !Apart(frames, config.maxBufferDuration)
    ensures Drops(config, frames) == 0 && WithoutOldest(config, frames, 0) == frames
  {
    hide Span, DroppableCount;
    SpanIsApart(frames, config.maxBufferDuration);
  }

  /** A push leaves everything in place if no two frames, the new one included, are too far apart and the queue is no larger than its limit. */
  lemma PushAdmits(s: State, f: Frame)
    requires Valid(s)
    requires !Apart(s.frames + [f], s.config.maxBufferDuration)
    requires s.config.maxBufferSize == 0 || Size(s.frames) <= s.config.maxBufferSize
    ensures Pushed(s, f).frames == s.frames + [f]
  {
    hide Span, Drops, WithoutOldest, Oldest, Size, RecordAll;
    NothingToDrop(s.config, s.frames + [f]);
    SpanIsApart(s.frames, s.config.maxBufferDuration);
    ApartGrows(s.frames, f, s.config.maxBufferDuration);
  }

  /**
   A video inter frame that finds the queue over a limit is not let in and moves nothing. Any other frame is let in
   behind all that is queued, and the frames that then have to go are the oldest that may.
   */
  lemma PushRefuses(s: State, f: Frame)
    requires Valid(s)
    ensures var over := Apart(s.frames, s.config.maxBufferDuration)
                        || (s.config.maxBufferSize > 0 && Size(s.frames) > s.config.maxBufferSize);
            if f.kind == Video && !f.isKeyframe && over then Pushed(s, f).frames == s.frames
            else exists k: nat :: Pushed(s, f).frames == WithoutOldest(s.config, s.frames + [f], k)
  {
    hide Span, WithoutOldest, Oldest, Size, RecordAll, Drops;
    SpanIsApart(s.frames, s.config.maxBufferDuration);
    var k := Drops(s.config, s.frames + [f]);
    assert Pushed(s, f).frames == if Refused(s, f) then s.frames else WithoutOldest(s.config, s.frames + [f], k);
  }

  class Buffer {
    var frames: seq<Frame>
    var bufferedBytes: nat
    var statistics: Statistics
    var config: Config

    ghost function S(): State
      reads this
    {
      State(frames, bufferedBytes, statistics, config)
    }

    constructor (config: Config)
      ensures S() == State([], 0, NO_STATISTICS, config) && Valid(S())
    {
      frames, bufferedBytes, statistics, this.config := [], 0, NO_STATISTICS, config;
    }

    method Push(frame: Frame)
      requires Valid(S())
      modifies this
      ensures S() == Pushed(old(S()), frame) && Valid(S())
    {
      hide Span, Drops;
      statistics := statistics.(totalFramesProcessed := statistics.totalFramesProcessed + 1);
      statistics := statistics.(totalBytesProcessed := statistics.totalBytesProcessed + |frame.data|);
      var drop := ShouldDropFrame(frame);
      if drop {
        RecordDroppedFrame(frame);
        return;
      }
      SizeAppend(frames, [frame]);
      assert [frame][1..] == [];
      frames := frames + [frame];
      bufferedBytes := bufferedBytes + |frame.data|;
      EnforceBufferLimit();
    }

    method Pop() returns (r: Frame, ok: bool)
      requires Valid(S())
      modifies this
      ensures ok <==> old(frames) != []
      ensures ok ==> r == old(frames)[0] && S() == Popped(old(S()))
      ensures !ok ==> S() == old(S())
      ensures Valid(S())
    {
      if frames == [] {
        return Frame(Data, 0, [], false), false;
      }
      r, ok := frames[0], true;
      frames := frames[1..];
      bufferedBytes := bufferedBytes - |r.data|;
    }

    method SetConfig(config: Config)
      requires Valid(S())
      modifies this
      ensures S() == Configured(old(S()), config) && Valid(S())
    {
      this.config := config;
      EnforceBufferLimit();
    }

    method ShouldDropFrame(frame: Frame) returns (drop: bool)
      ensures drop <==> Refused(S(), frame)
    {
      if frame.kind == Video && frame.isKeyframe {
        return false;
      }
      if config.preserveAudio && frame.kind == Audio {
        return false;
      }
      var bufferDuration := CalculateBufferDuration();
      if bufferDuration > config.maxBufferDuration {
        if frame.kind == Video && !frame.isKeyframe {
          return true;
        }
      }
      if config.maxBufferSize > 0 && bufferedBytes > config.maxBufferSize {
        if frame.kind == Video && !frame.isKeyframe {
          return true;
        }
      }
      drop := false;
    }

    method CalculateBufferDuration() returns (d: nat)
      ensures d == Span(frames)
    {
      var _, _, span := ComputeSpan(frames);
      d := span;
    }

    method RecordDroppedFrame(frame: Frame)
      modifies `statistics
      ensures statistics == Record(old(statistics), frame)
    {
      statistics := statistics.(totalDroppedBytes := statistics.totalDroppedBytes + |frame.data|);
      if frame.kind == Video {
        if frame.isKeyframe {
          statistics := statistics.(droppedKeyframes := statistics.droppedKeyframes + 1);
        } else {
          statistics := statistics.(droppedInterFrames := statistics.droppedInterFrames + 1);
        }
      } else if frame.kind == Audio {
        statistics := statistics.(droppedAudioFrames := statistics.droppedAudioFrames + 1);
      }
    }

    method EnforceBufferLimit()
      requires Valid(S())
      modifies `frames, `bufferedBytes, `statistics
      ensures S() == Enforced(old(S())) && Valid(S())
    {
      hide Span, DropsFrom, Dropping, DroppableCount;
      if frames == [] {
        EnforcedIdle(S());
        return;
      }
      ghost var s0 := S();
      ghost var k: nat := 0;
      NothingDropped(s0);
      var bufferDuration := CalculateBufferDuration();
      while bufferDuration > config.maxBufferDuration && |frames| > 1
        invariant Dropping(s0, S(), k) && bufferDuration == Span(frames)
        invariant (frames == s0.frames && k == 0) || (Settled(config, frames) && |s0.frames| > 1)
        decreases |frames|
      {
        var droppableFrames := CountDroppable();
        if droppableFrames == 0 {
          break;
        }
        ghost var before := |frames|;
        var droppedAny;
        droppedAny, k := DropPass(s0, k);
        bufferDuration := CalculateBufferDuration();
        if !droppedAny {
          break;
        }
      }
      DroppedEnough(s0, S(), k);
    }

    /** One pass over the queue, oldest first, that drops while the queue spans too much. */
    method DropPass(ghost s0: State, ghost k0: nat) returns (droppedAny: bool, ghost k: nat)
      requires Dropping(s0, S(), k0)
      modifies `frames, `bufferedBytes, `statistics
      ensures Dropping(s0, S(), k) && Settled(config, frames)
      ensures if droppedAny then |frames| < |old(frames)| else frames == old(frames) && k == k0
    {
      hide Span, Dropping, DroppableCount, Droppable, Record;
      droppedAny, k := false, k0;
      var i: nat := 0;
      while i < |frames|
        invariant i <= |frames| && (forall j :: 0 <= j < i ==> !Droppable(config, frames[j]))
        invariant Dropping(s0, S(), k)
        invariant if droppedAny then |frames| < |old(frames)| else frames == old(frames) && k == k0
        decreases |frames| - i
      {
        var duration := CalculateBufferDuration();
        if duration <= config.maxBufferDuration {
          return;
        }
        var frame := frames[i];
        if (frame.kind == Video && frame.isKeyframe) || (config.preserveAudio && frame.kind == Audio) || frame.kind == Data {
          NotDroppable(config, frame);
          i := i + 1;
        } else {
          IsDroppable(config, frame);
          DropOne(s0, S(), k, i);
          RecordDroppedFrame(frame);
          bufferedBytes := bufferedBytes - |frame.data|;
          frames := frames[..i] + frames[i + 1..];
          droppedAny := true;
          k := k + 1;
        }
      }
      NoneDroppable(config, frames);
    }

    /** How many droppable frames are queued; the source only asks whether there are any. */
    method CountDroppable() returns (n: nat)
      ensures n == DroppableCount(config, frames)
    {
      n := 0;
      var i: nat := 0;
      assert frames[0..] == frames;
      while i < |frames|
        invariant i <= |frames| && n + DroppableCount(config, frames[i..]) == DroppableCount(config, frames)
      {
        assert frames[i..][1..] == frames[i + 1..];
        if Droppable(config, frames[i]) {
          n := n + 1;
        }
        i := i + 1;
      }
      assert frames[i..] == [];
    }
  }

  /** `s` is `s0` after its `k` oldest droppable frames were dropped, none of them too many. */
  ghost predicate Dropping(s0: State, s: State, k: nat) {
    && Valid(s0) && Valid(s) && s.config == s0.config
    && k + DroppableCount(s.config, s.frames) == DroppableCount(s0.config, s0.frames)
    && (forall j: nat :: WithoutOldest(s0.config, s0.frames, k + j) == WithoutOldest(s.config, s.frames, j))
    && s.statistics == RecordAll(s0.statistics, Oldest(s0.config, s0.frames, k))
    && (forall j: nat :: Oldest(s0.config, s0.frames, k + j) == Oldest(s0.config, s0.frames, k) + Oldest(s.config, s.frames, j))
    && s0.bufferedBytes == s.bufferedBytes + Size(Oldest(s0.config, s0.frames, k))
    && (forall j :: 0 <= j < k ==> !Fits(s0.config, s0.frames, j))
  }

  /** Within the limit, or with nothing left to drop. */
  ghost predicate Settled(config: Config, frames: seq<Frame>) {
    Span(frames) <= config.maxBufferDuration || DroppableCount(config, frames) == 0
  }

  lemma NotDroppable(config: Config, f: Frame)
    requires (f.kind == Video && f.isKeyframe) || (config.preserveAudio && f.kind == Audio) || f.kind == Data
    ensures !Droppable(config, f)
  {}

  lemma IsDroppable(config: Config, f: Frame)
    requires !((f.kind == Video && f.isKeyframe) || (config.preserveAudio && f.kind == Audio) || f.kind == Data)
    ensures Droppable(config, f)
  {}

  lemma NothingDropped(s: State)
    requires Valid(s)
    ensures Dropping(s, s, 0)
  {}

  lemma EnforcedIdle(s: State)
    requires |s.frames| <= 1
    ensures Enforced(s) == s
  {}

  lemma {:induction false} RecordAllLast(s: Statistics, fs: seq<Frame>, f: Frame)
    ensures RecordAll(s, fs + [f]) == Record(RecordAll(s, fs), f)
    decreases |fs|
  {
    hide Record;
    if fs == [] {
      assert ([] + [f])[1..] == [];
    } else {
      assert (fs + [f])[1..] == fs[1..] + [f];
      RecordAllLast(Record(s, fs[0]), fs[1..], f);
    }
  }

  lemma SizeWithout(frames: seq<Frame>, i: nat)
    requires i < |frames|
    ensures Size(frames) == Size(frames[..i] + frames[i + 1..]) + |frames[i].data|
  {
    SizeAppend(frames[..i], frames[i + 1..]);
    SizeAppend(frames[..i], frames[i..]);
    assert frames[..i] + frames[i..] == frames && frames[i..][1..] == frames[i + 1..];
  }

  lemma DropOne(s0: State, s: State, k: nat, i: nat)
    requires Dropping(s0, s, k) && i < |s.frames| && Droppable(s.config, s.frames[i])
    requires forall j :: 0 <= j < i ==> !Droppable(s.config, s.frames[j])
    requires Span(s.frames) > s.config.maxBufferDuration
    ensures |s.frames[i].data| <= s.bufferedBytes
    ensures Dropping(s0, State(s.frames[..i] + s.frames[i + 1..], s.bufferedBytes - |s.frames[i].data|,
                               Record(s.statistics, s.frames[i]), s.config), k + 1)
  {
    hide Span, Droppable, Record;
    var less := s.frames[..i] + s.frames[i + 1..];
    var f := s.frames[i];
    SizeWithout(s.frames, i);
    var gone := Oldest(s0.config, s0.frames, k);
    WithoutOldestSplits(s.config, s.frames, i, 0);
    assert Oldest(s.config, less, 0) == [];
    assert Oldest(s0.config, s0.frames, k + 1) == gone + [f];
    RecordAllLast(s0.statistics, gone, f);
    SizeAppend(gone, [f]);
    assert [f][1..] == [];
    forall j: nat
      ensures WithoutOldest(s0.config, s0.frames, k + 1 + j) == WithoutOldest(s.config, less, j)
      ensures Oldest(s0.config, s0.frames, k + 1 + j) == (gone + [f]) + Oldest(s.config, less, j)
    {
      WithoutOldestSplits(s.config, s.frames, i, j);
      assert k + 1 + j == k + (j + 1);
      assert gone + ([f] + Oldest(s.config, less, j)) == (gone + [f]) + Oldest(s.config, less, j);
    }
    assert WithoutOldest(s0.config, s0.frames, k + 0) == WithoutOldest(s.config, s.frames, 0) == s.frames;
    assert !Fits(s0.config, s0.frames, k);
  }

  lemma {:induction false} DropsIs(config: Config, frames: seq<Frame>, j: nat, k: nat)
    requires j <= k <= DroppableCount(config, frames)
    requires forall m :: j <= m < k ==> !Fits(config, frames, m)
    requires k == DroppableCount(config, frames) || Fits(config, frames, k)
    ensures DropsFrom(config, frames, j) == k
    decreases k - j
  {
    hide Fits;
    if j < k {
      DropsIs(config, frames, j + 1, k);
    }
  }

  lemma DroppedEnough(s0: State, s: State, k: nat)
    requires Dropping(s0, s, k)
    requires (Settled(s.config, s.frames) && (k == 0 || |s0.frames| > 1)) || (s.frames == s0.frames && k == 0 && |s.frames| <= 1)
    ensures s == Enforced(s0) && Valid(s)
  {
    assert WithoutOldest(s0.config, s0.frames, k + 0) == WithoutOldest(s.config, s.frames, 0) == s.frames;
    if |s0.frames| > 1 {
      DropsIs(s0.config, s0.frames, 0, k);
    }
  }
}
