/**
 The GOP buffer: a queue of recent frames with the position of its last video keyframe, cut
 from the front when it grows too large or too long.
 */
module GopBuffer {
  import opened Bytes
  import opened Media

  datatype Config = Config(minBufferDuration: int, maxBufferSize: nat)

  datatype State = State(frames: seq<Frame>, bufferedBytes: nat, lastKeyframeIndex: nat, hasKeyframe: bool, config: Config)

  // ----- keyframes

  /** The positions of the video keyframes, each moved up by `offset`. */
  function KeyframesFrom(frames: seq<Frame>, offset: nat): seq<nat> {
    if frames == [] then []
    else (if IsVideoKey(frames[0]) then [offset] else []) + KeyframesFrom(frames[1..], offset + 1)
  }

  function Keyframes(frames: seq<Frame>): seq<nat> {
    KeyframesFrom(frames, 0)
  }

  /** `keys` are the positions of the video keyframes, in order. */
  ghost predicate AreKeyframes(frames: seq<Frame>, keys: seq<nat>) {
    && (forall j :: 0 <= j < |keys| ==> keys[j] < |frames| && IsVideoKey(frames[keys[j]]))
    && (forall i :: 0 <= i < |frames| && IsVideoKey(frames[i]) ==> i in keys)
    && (forall j, k :: 0 <= j < k < |keys| ==> keys[j] < keys[k])
  }

  lemma {:induction false} KeyframesFromSound(frames: seq<Frame>, offset: nat, j: nat)
    requires j < |KeyframesFrom(frames, offset)|
    ensures var at := KeyframesFrom(frames, offset)[j];
            offset <= at < offset + |frames| && IsVideoKey(frames[at - offset])
    ensures j + 1 < |KeyframesFrom(frames, offset)| ==> KeyframesFrom(frames, offset)[j] < KeyframesFrom(frames, offset)[j + 1]
    decreases |frames|
  {
    hide IsVideoKey;
    var later := KeyframesFrom(frames[1..], offset + 1);
    if !IsVideoKey(frames[0]) {
      KeyframesFromSound(frames[1..], offset + 1, j);
    } else if j > 0 {
      KeyframesFromSound(frames[1..], offset + 1, j - 1);
      assert KeyframesFrom(frames, offset)[j] == later[j - 1];
    } else if |later| > 0 {
      KeyframesFromSound(frames[1..], offset + 1, 0);
    }
  }

  lemma {:induction false} KeyframesFromComplete(frames: seq<Frame>, offset: nat, i: nat)
    requires i < |frames| && IsVideoKey(frames[i])
    ensures offset + i in KeyframesFrom(frames, offset)
    decreases |frames|
  {
    hide IsVideoKey;
    if i > 0 {
      KeyframesFromComplete(frames[1..], offset + 1, i - 1);
    }
  }

  lemma KeyframesNext(frames: seq<Frame>, i: nat)
    requires i < |frames|
    ensures KeyframesFrom(frames[i..], i)
         == (if IsVideoKey(frames[i]) then [i] else []) + KeyframesFrom(frames[i + 1..], i + 1)
  {
    assert frames[i..][1..] == frames[i + 1..];
  }

  lemma KeyframesNone(frames: seq<Frame>)
    ensures KeyframesFrom(frames[|frames|..], |frames|) == []
  {}

  /** What holds between neighbours holds along the whole sequence. */
  lemma {:induction false} Ascending(keys: seq<nat>, j: nat, k: nat)
    requires forall i {:trigger keys[i]} :: 0 <= i < |keys| - 1 ==> keys[i] < keys[i + 1]
    requires j < k < |keys|
    ensures keys[j] < keys[k]
    decreases k
  {
    if j < k - 1 {
      Ascending(keys, j, k - 1);
    }
  }

  lemma KeyframesAre(frames: seq<Frame>)
    ensures AreKeyframes(frames, Keyframes(frames))
  {
    hide KeyframesFrom, IsVideoKey;
    var keys := Keyframes(frames);
    forall j | 0 <= j < |keys| ensures keys[j] < |frames| && IsVideoKey(frames[keys[j]]) {
      KeyframesFromSound(frames, 0, j);
    }
    forall i | 0 <= i < |frames| && IsVideoKey(frames[i]) ensures i in keys {
      KeyframesFromComplete(frames, 0, i);
    }
    forall j, k | 0 <= j < k < |keys| ensures keys[j] < keys[k] {
      forall i {:trigger keys[i]} | 0 <= i < |keys| - 1 ensures keys[i] < keys[i + 1] {
        KeyframesFromSound(frames, 0, i);
      }
      Ascending(keys, j, k);
    }
  }

  lemma KeyframesWithin(frames: seq<Frame>)
    ensures forall j :: 0 <= j < |Keyframes(frames)| ==> Keyframes(frames)[j] <= |frames|
  {
    KeyframesAre(frames);
  }

  /** The position of the last video keyframe. */
  ghost predicate IsLastKeyframe(frames: seq<Frame>, k: nat) {
    k < |frames| && IsVideoKey(frames[k]) && forall i :: k < i < |frames| ==> !IsVideoKey(frames[i])
  }

  predicate NoKeyframe(frames: seq<Frame>) {
    forall i :: 0 <= i < |frames| ==> !IsVideoKey(frames[i])
  }

  // ----- eviction

  /** What the loop over cut positions asks of the frames that would remain. */
  predicate LongEnough(config: Config, frames: seq<Frame>, cut: nat)
    requires cut <= |frames|
  {
    var minTs := MinTimestamp(frames[cut..]);
    (if MaxTimestamp(frames) >= minTs then MaxTimestamp(frames) - minTs else 0) >= config.minBufferDuration
  }

  predicate SmallEnough(config: Config, frames: seq<Frame>, cut: nat)
    requires cut <= |frames|
  {
    Size(frames[cut..]) <= config.maxBufferSize
  }

  predicate Acceptable(config: Config, frames: seq<Frame>, keys: seq<nat>, k: nat)
    requires k < |keys| && keys[k] <= |frames|
  {
    LongEnough(config, frames, keys[k]) || (SmallEnough(config, frames, keys[k]) && k == |keys| - 1)
  }

  /** The cut the loop settles on, from the `k`-th keyframe on, `cut` being the choice so far. */
  function ChooseCut(config: Config, frames: seq<Frame>, keys: seq<nat>, k: nat, cut: nat): nat
    requires forall j :: 0 <= j < |keys| ==> keys[j] <= |frames|
    decreases |keys| - k
  {
    if k >= |keys| then cut
    else if Acceptable(config, frames, keys, k) then
      if SmallEnough(config, frames, keys[k]) then keys[k]
      else ChooseCut(config, frames, keys, k + 1, keys[k])
    else ChooseCut(config, frames, keys, k + 1, cut)
  }

  /** How many frames leave from the front until the rest is small enough. */
  function FrontDrops(frames: seq<Frame>, maxBufferSize: nat): (n: nat)
    ensures n <= |frames|
  {
    if frames == [] || Size(frames) <= maxBufferSize then 0 else 1 + FrontDrops(frames[1..], maxBufferSize)
  }

  predicate NeedsEviction(config: Config, frames: seq<Frame>) {
    Size(frames) > config.maxBufferSize || Span(frames) > config.minBufferDuration * 2
  }

  /** How many frames an eviction removes from the front. */
  function Evicted(config: Config, frames: seq<Frame>): (n: nat)
    ensures n <= |frames|
  {
    if frames == [] || !NeedsEviction(config, frames) then 0
    else
      var keys := Keyframes(frames);
      if |keys| < 2 then FrontDrops(frames, config.maxBufferSize)
      else
        KeyframesAre(frames);
        CutWithin(config, frames, keys, 1, 0);
        ChooseCut(config, frames, keys, 1, 0)
  }

  lemma {:induction false} CutWithin(config: Config, frames: seq<Frame>, keys: seq<nat>, k: nat, cut: nat)
    requires (forall j :: 0 <= j < |keys| ==> keys[j] <= |frames|) && cut <= |frames|
    ensures ChooseCut(config, frames, keys, k, cut) <= |frames|
    decreases |keys| - k
  {
    hide Acceptable, SmallEnough;
    if k < |keys| {
      CutWithin(config, frames, keys, k + 1, keys[k]);
      CutWithin(config, frames, keys, k + 1, cut);
    }
  }

  // ----- states

  predicate HasKeyframe(frames: seq<Frame>) {
    !NoKeyframe(frames)
  }

  /** The position of the last video keyframe, or 0. */
  function LastKeyframe(frames: seq<Frame>): (k: nat) {
    if frames == [] then 0
    else if IsVideoKey(frames[|frames| - 1]) then |frames| - 1
    else LastKeyframe(frames[..|frames| - 1])
  }

  /** The buffer with these frames: its byte count and keyframe index agree with them. */
  ghost predicate Valid(s: State) {
    && s.bufferedBytes == Size(s.frames)
    && (if s.hasKeyframe then IsLastKeyframe(s.frames, s.lastKeyframeIndex)
        else s.lastKeyframeIndex == 0 && NoKeyframe(s.frames))
  }

  /** The one valid state with these frames. */
  function Holding(frames: seq<Frame>, config: Config): State {
    State(frames, Size(frames), LastKeyframe(frames), HasKeyframe(frames), config)
  }

  function Evict(config: Config, frames: seq<Frame>): State {
    Holding(frames[Evicted(config, frames)..], config)
  }

  function Pushed(s: State, frame: Frame): State {
    Evict(s.config, s.frames + [frame])
  }

  lemma {:induction false} LastKeyframeIs(frames: seq<Frame>)
    ensures if HasKeyframe(frames) then IsLastKeyframe(frames, LastKeyframe(frames)) else LastKeyframe(frames) == 0
    decreases |frames|
  {
    hide IsVideoKey;
    if frames != [] {
      var front := frames[..|frames| - 1];
      LastKeyframeIs(front);
      if !IsVideoKey(frames[|frames| - 1]) && HasKeyframe(frames) {
        var i :| 0 <= i < |frames| && IsVideoKey(frames[i]);
        assert front[i] == frames[i];
        assert forall j :: LastKeyframe(front) < j < |front| ==> frames[j] == front[j];
      }
    }
  }

  lemma ValidIsHolding(s: State)
    ensures Valid(s) <==> s == Holding(s.frames, s.config)
  {
    hide IsVideoKey;
    LastKeyframeIs(s.frames);
    if Valid(s) && s.hasKeyframe {
      assert IsVideoKey(s.frames[s.lastKeyframeIndex]);
      assert IsLastKeyframe(s.frames, LastKeyframe(s.frames));
    }
  }

  /** What an eviction leaves of the frames. */
  ghost predicate Cut(config: Config, all: seq<Frame>, rest: seq<Frame>) {
    rest == all[Evicted(config, all)..]
  }

  lemma EvictedState(config: Config, all: seq<Frame>, s: State)
    requires Valid(s) && s.config == config && Cut(config, all, s.frames)
    ensures s == Evict(config, all)
  {
    hide Evicted;
    ValidIsHolding(s);
  }

  class Buffer {
    var frames: seq<Frame>
    var bufferedBytes: nat
    var lastKeyframeIndex: nat
    var hasKeyframe: bool
    var config: Config

    ghost function S(): State
      reads this
    {
      State(frames, bufferedBytes, lastKeyframeIndex, hasKeyframe, config)
    }

    constructor (config: Config)
      ensures Valid(S()) && S() == Holding([], config)
    {
      frames, bufferedBytes, lastKeyframeIndex, hasKeyframe, this.config := [], 0, 0, false, config;
    }

    method Push(frame: Frame)
      requires Valid(S())
      modifies this
      ensures Valid(S()) && S() == Pushed(old(S()), frame)
    {
      hide Size;
      SizeAppend(frames, [frame]);
      SizeOne(frame);
      frames := frames + [frame];
      bufferedBytes := bufferedBytes + |frame.data|;
      if frame.isKeyframe && frame.kind == Video {
        lastKeyframeIndex := |frames| - 1;
        hasKeyframe := true;
      }
      EvictOldFrames();
    }

    method SetConfig(config: Config)
      requires Valid(S())
      modifies this
      ensures Valid(S()) && S() == Evict(config, old(frames))
    {
      this.config := config;
      EvictOldFrames();
    }

    method Clear()
      modifies this
      ensures Valid(S()) && S() == Holding([], old(config))
    {
      frames := [];
      bufferedBytes := 0;
      lastKeyframeIndex := 0;
      hasKeyframe := false;
    }

    method GetFromLastKeyframe() returns (result: seq<Frame>)
      requires Valid(S())
      ensures result == FromLastKeyframe(S())
    {
      if !hasKeyframe || frames == [] {
        return [];
      }
      result := [];
      var i := lastKeyframeIndex;
      while i < |frames|
        invariant lastKeyframeIndex <= i <= |frames|
        invariant result == frames[lastKeyframeIndex..i]
      {
        result := result + [frames[i]];
        i := i + 1;
      }
    }

    method EvictOldFrames()
      requires Valid(S())
      modifies this
      ensures Valid(S()) && S() == Evict(old(config), old(frames))
    {
      hide Size, Evict, Evicted, Cut, Holding, HasKeyframe, LastKeyframe, IsLastKeyframe, NoKeyframe, IsVideoKey;
      var evicted := CutFrames();
      if evicted {
        UpdateKeyframeIndex();
      }
      EvictedState(old(config), old(frames), S());
    }

    /** Cuts the queue; false if nothing called for it. */
    method CutFrames() returns (evicted: bool)
      requires bufferedBytes == Size(frames)
      modifies `frames, `bufferedBytes
      ensures Cut(config, old(frames), frames) && bufferedBytes == Size(frames)
      ensures !evicted ==> frames == old(frames)
    {
      hide Size, Span, MinTimestamp, MaxTimestamp, ChooseCut, FrontDrops, Keyframes, AreKeyframes;
      assert frames[0..] == frames;
      evicted := false;
      if frames == [] {
        return;
      }
      var minTs, maxTs, currentDuration := ComputeSpan(frames);
      var needsEviction := false;
      if bufferedBytes > config.maxBufferSize {
        needsEviction := true;
      }
      if currentDuration > config.minBufferDuration * 2 {
        needsEviction := true;
      }
      if !needsEviction {
        return;
      }
      evicted := true;
      var keyframeIndices := CollectKeyframes();
      KeyframesAre(frames);
      KeyframesWithin(frames);
      if |keyframeIndices| < 2 {
        DropFromFront();
        return;
      }
      var evictionBoundary := FindCut(keyframeIndices, maxTs);
      CutWithin(config, frames, keyframeIndices, 1, 0);
      if evictionBoundary > 0 {
        frames, bufferedBytes := RemoveFront(frames, bufferedBytes, evictionBoundary);
      }
    }

    method CollectKeyframes() returns (keyframeIndices: seq<nat>)
      ensures keyframeIndices == Keyframes(frames)
    {
      hide KeyframesFrom;
      keyframeIndices := [];
      var i: nat := 0;
      assert frames[0..] == frames;
      while i < |frames|
        invariant i <= |frames|
        invariant keyframeIndices + KeyframesFrom(frames[i..], i) == Keyframes(frames)
      {
        KeyframesNext(frames, i);
        ghost var later := KeyframesFrom(frames[i + 1..], i + 1);
        if frames[i].isKeyframe && frames[i].kind == Video {
          assert keyframeIndices + ([i] + later) == (keyframeIndices + [i]) + later;
          keyframeIndices := keyframeIndices + [i];
        } else {
          assert keyframeIndices + ([] + later) == keyframeIndices + later;
        }
        i := i + 1;
      }
      KeyframesNone(frames);
      assert keyframeIndices + [] == keyframeIndices;
    }

    /** With fewer than two keyframes only the size counts. */
    method DropFromFront()
      requires bufferedBytes == Size(frames)
      modifies `frames, `bufferedBytes
      ensures frames == old(frames)[FrontDrops(old(frames), config.maxBufferSize)..] && bufferedBytes == Size(frames)
    {
      ghost var all := frames;
      ghost var n: nat := 0;
      while frames != [] && bufferedBytes > config.maxBufferSize
        invariant n <= |all| && frames == all[n..] && bufferedBytes == Size(frames)
        invariant FrontDrops(all, config.maxBufferSize) == n + FrontDrops(frames, config.maxBufferSize)
        decreases |frames|
      {
        assert all[n..][1..] == all[n + 1..];
        bufferedBytes := bufferedBytes - |frames[0].data|;
        frames := frames[1..];
        n := n + 1;
      }
    }

    method FindCut(keyframeIndices: seq<nat>, maxTs: uint32) returns (evictionBoundary: nat)
      requires keyframeIndices == Keyframes(frames) && AreKeyframes(frames, keyframeIndices) && |keyframeIndices| >= 2
      requires maxTs == MaxTimestamp(frames)
      ensures evictionBoundary == ChooseCut(config, frames, keyframeIndices, 1, 0)
    {
      hide Size, MinTimestamp, MaxTimestamp, Keyframes;
      evictionBoundary := 0;
      var kfIdx: nat := 0;
      while kfIdx < |keyframeIndices| - 1
        invariant kfIdx <= |keyframeIndices| - 1
        invariant ChooseCut(config, frames, keyframeIndices, 1, 0)
               == ChooseCut(config, frames, keyframeIndices, kfIdx + 1, evictionBoundary)
      {
        var proposedBoundary := keyframeIndices[kfIdx + 1];
        var proposedBytes := ComputeSize(frames[proposedBoundary..]);
        var proposedMinTs, _, _ := ComputeSpan(frames[proposedBoundary..]);
        var proposedDuration := if maxTs >= proposedMinTs then maxTs - proposedMinTs else 0;
        if proposedDuration >= config.minBufferDuration
           || (proposedBytes <= config.maxBufferSize && kfIdx == |keyframeIndices| - 2) {
          evictionBoundary := proposedBoundary;
          if proposedBytes <= config.maxBufferSize {
            return;
          }
        }
        kfIdx := kfIdx + 1;
      }
    }

    method UpdateKeyframeIndex()
      modifies `hasKeyframe, `lastKeyframeIndex
      ensures if hasKeyframe then IsLastKeyframe(frames, lastKeyframeIndex) else lastKeyframeIndex == 0 && NoKeyframe(frames)
    {
      hasKeyframe := false;
      lastKeyframeIndex := 0;
      var i := |frames|;
      while i > 0
        invariant 0 <= i <= |frames| && !hasKeyframe && lastKeyframeIndex == 0
        invariant forall j :: i <= j < |frames| ==> !IsVideoKey(frames[j])
      {
        var frame := frames[i - 1];
        if frame.isKeyframe && frame.kind == Video {
          lastKeyframeIndex := i - 1;
          hasKeyframe := true;
          return;
        }
        i := i - 1;
      }
    }
  }

  /** What a late joiner is given. */
  function FromLastKeyframe(s: State): seq<Frame> {
    if !s.hasKeyframe || s.lastKeyframeIndex >= |s.frames| then [] else s.frames[s.lastKeyframeIndex..]
  }

  method ComputeSize(frames: seq<Frame>) returns (n: nat)
    ensures n == Size(frames)
  {
    n := 0;
    var i: nat := 0;
    assert frames[0..] == frames;
    while i < |frames|
      invariant i <= |frames| && n + Size(frames[i..]) == Size(frames)
    {
      assert frames[i..][1..] == frames[i + 1..];
      n := n + |frames[i].data|;
      i := i + 1;
    }
    assert frames[i..] == [];
  }

  method RemoveFront(frames: seq<Frame>, bytes: nat, count: nat) returns (rest: seq<Frame>, restBytes: nat)
    requires count <= |frames| && bytes == Size(frames)
    ensures rest == frames[count..] && restBytes == Size(rest)
  {
    rest, restBytes := frames, bytes;
    var i: nat := 0;
    assert frames[0..] == frames;
    while i < count
      invariant i <= count && rest == frames[i..] && restBytes == Size(rest)
    {
      assert frames[i..][1..] == frames[i + 1..];
      restBytes := restBytes - |rest[0].data|;
      rest := rest[1..];
      i := i + 1;
    }
  }

  lemma SizeSplit(frames: seq<Frame>, i: nat)
    requires i <= |frames|
    ensures Size(frames) == Size(frames[..i]) + Size(frames[i..])
  {
    SizeAppend(frames[..i], frames[i..]);
    assert frames[..i] + frames[i..] == frames;
  }
}
