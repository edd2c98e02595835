/** What an eviction chooses, and what the GOP buffer holds after any run. */
module GopRun {
  import opened Bytes
  import opened Media
  import opened GopBuffer

  // ----- the choice of a cut

  ghost predicate Nondecreasing(frames: seq<Frame>) {
    forall i, j :: 0 <= i < j < |frames| ==> frames[i].timestamp <= frames[j].timestamp
  }

  /** An eviction happens at all only when the frames are larger than the limit, or two are further apart than twice the minimum. */
  lemma EvictsIff(config: Config, frames: seq<Frame>)
    ensures NeedsEviction(config, frames)
            <==> Size(frames) > config.maxBufferSize || Apart(frames, config.minBufferDuration + config.minBufferDuration)
    ensures !(Size(frames) > config.maxBufferSize || Apart(frames, config.minBufferDuration + config.minBufferDuration))
            ==> Evict(config, frames) == Holding(frames, config)
  {
    hide Span, Size, Keyframes, FrontDrops, ChooseCut, LastKeyframe, HasKeyframe;
    SpanIsApart(frames, config.minBufferDuration * 2);
    assert frames[0..] == frames;
  }

  /** What remains behind the cut is within the size limit. */
  predicate Small(config: Config, frames: seq<Frame>, cut: nat)
    requires cut <= |frames|
  {
    Size(frames[cut..]) <= config.maxBufferSize
  }

  /** Cutting at the `k`-th keyframe leaves a long enough buffer, or a last GOP within the size limit. */
  predicate Meets(config: Config, frames: seq<Frame>, keys: seq<nat>, k: nat)
    requires k < |keys| && keys[k] <= |frames|
  {
    || Span(frames[keys[k]..]) >= config.minBufferDuration
    || (k == |keys| - 1 && Small(config, frames, keys[k]))
  }

  lemma {:induction false} OrderedExtremes(frames: seq<Frame>)
    requires Nondecreasing(frames) && frames != []
    ensures MinTimestamp(frames) == frames[0].timestamp
    ensures MaxTimestamp(frames) == frames[|frames| - 1].timestamp
    decreases |frames|
  {
    var rest := frames[1..];
    if rest != [] {
      OrderedExtremes(rest);
      assert rest[0] == frames[1] && rest[|rest| - 1] == frames[|frames| - 1];
    }
  }

  lemma LongEnoughIsSpan(config: Config, frames: seq<Frame>, cut: nat)
    requires Nondecreasing(frames) && cut < |frames|
    ensures LongEnough(config, frames, cut) <==> Span(frames[cut..]) >= config.minBufferDuration
  {
    hide MinTimestamp, MaxTimestamp;
    OrderedExtremes(frames);
    OrderedExtremes(frames[cut..]);
  }

  /** `c` is the first cut from the `k`-th on that passes within the size limit, or else the last that passes. */
  ghost predicate Chosen(config: Config, frames: seq<Frame>, keys: seq<nat>, k: nat, cut: nat, c: nat)
    requires forall j :: 0 <= j < |keys| ==> keys[j] <= |frames|
  {
    || (exists j :: k <= j < |keys| && c == keys[j] && Meets(config, frames, keys, j) && Small(config, frames, keys[j])
            && forall i :: k <= i < j ==> !(Meets(config, frames, keys, i) && Small(config, frames, keys[i])))
    || ((forall i :: k <= i < |keys| ==> !(Meets(config, frames, keys, i) && Small(config, frames, keys[i])))
        && ((exists j :: k <= j < |keys| && c == keys[j] && Meets(config, frames, keys, j)
                && forall i :: j < i < |keys| ==> !Meets(config, frames, keys, i))
            || ((forall i :: k <= i < |keys| ==> !Meets(config, frames, keys, i)) && c == cut)))
  }

  lemma ChosenHere(config: Config, frames: seq<Frame>, keys: seq<nat>, k: nat, cut: nat)
    requires (forall j :: 0 <= j < |keys| ==> keys[j] <= |frames|) && k < |keys|
    requires Meets(config, frames, keys, k) && Small(config, frames, keys[k])
    ensures Chosen(config, frames, keys, k, cut, keys[k])
  {
    hide Meets, Small;
  }

  lemma ChosenLater(config: Config, frames: seq<Frame>, keys: seq<nat>, k: nat, cut: nat, c: nat)
    requires (forall j :: 0 <= j < |keys| ==> keys[j] <= |frames|) && k < |keys|
    requires !(Meets(config, frames, keys, k) && Small(config, frames, keys[k]))
    requires Chosen(config, frames, keys, k + 1, if Meets(config, frames, keys, k) then keys[k] else cut, c)
    ensures Chosen(config, frames, keys, k, cut, c)
  {
    hide Meets, Small;
  }

  lemma {:induction false} ChooseCutChooses(config: Config, frames: seq<Frame>, keys: seq<nat>, k: nat, cut: nat)
    requires forall j :: 0 <= j < |keys| ==> keys[j] <= |frames|
    requires forall j :: 0 <= j < |keys| ==> Acceptable(config, frames, keys, j) == Meets(config, frames, keys, j)
    requires forall j :: 0 <= j < |keys| ==> SmallEnough(config, frames, keys[j]) == Small(config, frames, keys[j])
    ensures Chosen(config, frames, keys, k, cut, ChooseCut(config, frames, keys, k, cut))
    decreases |keys| - k
  {
    hide Acceptable, Meets, SmallEnough, Small;
    if k < |keys| {
      hide Chosen;
      assert Acceptable(config, frames, keys, k) == Meets(config, frames, keys, k);
      assert SmallEnough(config, frames, keys[k]) == Small(config, frames, keys[k]);
      if Meets(config, frames, keys, k) && Small(config, frames, keys[k]) {
        ChosenHere(config, frames, keys, k, cut);
      } else {
        var next := if Meets(config, frames, keys, k) then keys[k] else cut;
        ChooseCutChooses(config, frames, keys, k + 1, next);
        ChosenLater(config, frames, keys, k, cut, ChooseCut(config, frames, keys, k + 1, next));
      }
    }
  }

  /**
   With timestamps in order and two GOPs or more, an eviction removes nothing or whole GOPs but never
   the last one, and what remains is long enough, or the last GOP within the size limit. The cut is the
   first that passes this test within the size limit, if there is one, and else the last that passes.
   */
  lemma EvictionChoice(config: Config, frames: seq<Frame>)
    requires Nondecreasing(frames) && |Keyframes(frames)| >= 2
    ensures AreKeyframes(frames, Keyframes(frames))
    ensures !NeedsEviction(config, frames) ==> Evicted(config, frames) == 0
    ensures NeedsEviction(config, frames) ==> Chosen(config, frames, Keyframes(frames), 1, 0, Evicted(config, frames))
    ensures var c := Evicted(config, frames); var keys := Keyframes(frames);
            c == 0 || (c in keys[1..] && c <= keys[|keys| - 1]
                       && (Span(frames[c..]) >= config.minBufferDuration
                           || (c == keys[|keys| - 1] && Size(frames[c..]) <= config.maxBufferSize)))
  {
    hide Size, Span, NeedsEviction, ChooseCut, KeyframesFrom, IsVideoKey, Nondecreasing;
    var keys := Keyframes(frames);
    KeyframesAre(frames);
    forall j | 0 <= j < |keys| ensures Acceptable(config, frames, keys, j) == Meets(config, frames, keys, j) {
      hide MinTimestamp, MaxTimestamp;
      LongEnoughIsSpan(config, frames, keys[j]);
    }
    ChooseCutChooses(config, frames, keys, 1, 0);
    var c := Evicted(config, frames);
    if NeedsEviction(config, frames) {
      ChosenMeets(config, frames, keys, c);
    }
  }

  lemma ChosenMeets(config: Config, frames: seq<Frame>, keys: seq<nat>, c: nat)
    requires AreKeyframes(frames, keys) && |keys| >= 2 && c <= |frames|
    requires Chosen(config, frames, keys, 1, 0, c)
    ensures c == 0 || (c in keys[1..] && c <= keys[|keys| - 1]
                       && (Span(frames[c..]) >= config.minBufferDuration
                           || (c == keys[|keys| - 1] && Size(frames[c..]) <= config.maxBufferSize)))
  {}

  /** With fewer than two keyframes the fewest frames leave that bring the rest within the size limit. */
  lemma {:induction false} FewestFrontDrops(frames: seq<Frame>, maxBufferSize: nat)
    ensures var n := FrontDrops(frames, maxBufferSize);
            Size(frames[n..]) <= maxBufferSize && forall m: nat :: m < n ==> Size(frames[m..]) > maxBufferSize
    decreases |frames|
  {
    assert frames[0..] == frames;
    if frames != [] && Size(frames) > maxBufferSize {
      FewestFrontDrops(frames[1..], maxBufferSize);
      var n := FrontDrops(frames, maxBufferSize);
      assert frames[1..][n - 1..] == frames[n..];
      forall m: nat | m < n ensures Size(frames[m..]) > maxBufferSize {
        if m > 0 {
          assert frames[1..][m - 1..] == frames[m..];
        }
      }
    }
  }

  // ----- the last keyframe

  /** The last GOP, still under way, from its keyframe on. */
  function CurrentGop(history: seq<Frame>): seq<Frame> {
    LastKeyframeWithin(history);
    history[LastKeyframe(history)..]
  }

  lemma LastKeyframeWithin(frames: seq<Frame>)
    ensures LastKeyframe(frames) <= |frames|
  {
    LastKeyframeIs(frames);
  }

  lemma LastKeyframeUnique(frames: seq<Frame>, k: nat)
    requires IsLastKeyframe(frames, k)
    ensures LastKeyframe(frames) == k && HasKeyframe(frames)
  {
    hide IsVideoKey;
    LastKeyframeIs(frames);
    assert IsVideoKey(frames[k]);
  }

  lemma LastKeyframeOfRest(frames: seq<Frame>, n: nat)
    requires HasKeyframe(frames) && n <= |frames|
    ensures HasKeyframe(frames[n..]) <==> n <= LastKeyframe(frames)
    ensures n <= LastKeyframe(frames) ==> LastKeyframe(frames[n..]) == LastKeyframe(frames) - n
  {
    hide IsVideoKey;
    LastKeyframeIs(frames);
    var k := LastKeyframe(frames);
    if n <= k {
      assert frames[n..][k - n] == frames[k];
      LastKeyframeUnique(frames[n..], k - n);
    } else {
      forall i | 0 <= i < |frames| - n ensures !IsVideoKey(frames[n..][i]) {
        assert frames[n..][i] == frames[n + i];
      }
    }
  }

  lemma LastKeyframeAppend(frames: seq<Frame>, f: Frame)
    ensures IsVideoKey(f) ==> LastKeyframe(frames + [f]) == |frames| && HasKeyframe(frames + [f])
    ensures !IsVideoKey(f) ==> LastKeyframe(frames + [f]) == LastKeyframe(frames)
    ensures !IsVideoKey(f) ==> (HasKeyframe(frames + [f]) <==> HasKeyframe(frames))
  {}

  /** An eviction loses the last keyframe exactly when it is the only one and its GOP alone is over the limit. */
  lemma KeepsLastKeyframe(config: Config, frames: seq<Frame>)
    requires HasKeyframe(frames)
    ensures HasKeyframe(frames[Evicted(config, frames)..])
            <==> (|Keyframes(frames)| >= 2 || Size(CurrentGop(frames)) <= config.maxBufferSize)
  {
    hide Size, Span, ChooseCut, KeyframesFrom, IsVideoKey;
    var last := LastKeyframe(frames);
    var c := Evicted(config, frames);
    LastKeyframeIs(frames);
    LastKeyframeOfRest(frames, c);
    var keys := Keyframes(frames);
    KeyframesAre(frames);
    SizeSplit(frames, last);
    if |keys| >= 2 {
      CutAtKey(config, frames, keys, 1, 0);
      assert c <= last by {
        if c != 0 { assert c <= last by { assert c in keys; } }
      }
    } else if NeedsEviction(config, frames) {
      FewestFrontDrops(frames, config.maxBufferSize);
      if last < c {
        assert Size(frames[last..]) > config.maxBufferSize;
      } else {
        SizeSplit(frames[c..], last - c);
        assert frames[c..][last - c..] == frames[last..];
      }
    }
  }

  lemma {:induction false} CutAtKey(config: Config, frames: seq<Frame>, keys: seq<nat>, k: nat, cut: nat)
    requires forall j :: 0 <= j < |keys| ==> keys[j] <= |frames|
    ensures var c := ChooseCut(config, frames, keys, k, cut); c == cut || c in keys
    decreases |keys| - k
  {
    hide Acceptable, SmallEnough;
    if k < |keys| {
      CutAtKey(config, frames, keys, k + 1, cut);
      CutAtKey(config, frames, keys, k + 1, keys[k]);
    }
  }

  // ----- runs

  datatype Op = Push(frame: Frame) | SetConfig(config: Config) | Clear

  /** The buffer, and all frames pushed since the last clear. */
  datatype RunState = RunState(s: State, history: seq<Frame>)

  ghost function Fresh(config: Config): RunState {
    RunState(Holding([], config), [])
  }

  ghost function Apply(r: RunState, op: Op): RunState {
    match op
    case Push(frame) => RunState(Pushed(r.s, frame), r.history + [frame])
    case SetConfig(config) => r.(s := Evict(config, r.s.frames))
    case Clear => RunState(Holding([], r.s.config), [])
  }

  ghost function ApplyAll(r: RunState, ops: seq<Op>): RunState
    decreases |ops|
  {
    if ops == [] then r else ApplyAll(Apply(r, ops[0]), ops[1..])
  }

  ghost predicate IsSuffix(sub: seq<Frame>, all: seq<Frame>) {
    |sub| <= |all| && sub == all[|all| - |sub|..]
  }

  /** The buffer is a true cache of the history. */
  ghost predicate Caches(r: RunState) {
    && r.s == Holding(r.s.frames, r.s.config)
    && IsSuffix(r.s.frames, r.history)
  }

  lemma CacheStep(r: RunState, op: Op)
    requires Caches(r)
    ensures Caches(Apply(r, op))
  {
    hide Evicted, Size, LastKeyframe, HasKeyframe;
    match op
    case Push(frame) =>
      var all := r.s.frames + [frame];
      assert IsSuffix(all, r.history + [frame]);
      SuffixOfSuffix(all, r.history + [frame], Evicted(r.s.config, all));
    case SetConfig(config) =>
      SuffixOfSuffix(r.s.frames, r.history, Evicted(config, r.s.frames));
    case Clear =>
  }

  lemma SuffixOfSuffix(sub: seq<Frame>, all: seq<Frame>, n: nat)
    requires IsSuffix(sub, all) && n <= |sub|
    ensures IsSuffix(sub[n..], all)
  {}

  lemma {:induction false} CachesThroughout(r: RunState, ops: seq<Op>)
    requires Caches(r)
    ensures Caches(ApplyAll(r, ops))
    decreases |ops|
  {
    hide Caches, Apply;
    if ops != [] {
      CacheStep(r, ops[0]);
      CachesThroughout(Apply(r, ops[0]), ops[1..]);
    }
  }

  /** What a cache gives a joiner: the history from its last keyframe if that is still there, else nothing. */
  lemma CacheAnswers(r: RunState)
    requires Caches(r)
    ensures FromLastKeyframe(r.s) == if HasKeyframe(r.s.frames) then CurrentGop(r.history) else []
    ensures HasKeyframe(r.s.frames) ==> HasKeyframe(r.history) && FromLastKeyframe(r.s) != []
  {
    hide Size, IsVideoKey, LastKeyframe;
    var frames, h := r.s.frames, r.history;
    var n := |h| - |frames|;
    LastKeyframeIs(frames);
    if HasKeyframe(frames) {
      var k := LastKeyframe(frames);
      assert h[n + k] == frames[k];
      assert HasKeyframe(h);
      LastKeyframeOfRest(h, n);
      LastKeyframeWithin(h);
      assert h[n..][k..] == h[n + k..];
    }
  }

  /**
   After any run of pushes, config changes and clears the buffer is a suffix of the frames pushed since the
   last clear, its byte count is the sum of their sizes, its index is at the last video keyframe, and a
   late joiner is given nothing or exactly the history from its last video keyframe.
   */
  lemma RefinesHistory(config: Config, ops: seq<Op>)
    ensures var r := ApplyAll(Fresh(config), ops);
            && IsSuffix(r.s.frames, r.history)
            && Valid(r.s)
            && (FromLastKeyframe(r.s) == [] || (HasKeyframe(r.history) && FromLastKeyframe(r.s) == CurrentGop(r.history)))
  {
    hide Apply, HasKeyframe, CurrentGop, FromLastKeyframe, Size, LastKeyframe, Valid;
    CachesThroughout(Fresh(config), ops);
    var r := ApplyAll(Fresh(config), ops);
    CacheAnswers(r);
    ValidIsHolding(r.s);
  }

  // ----- staying joinable

  /** After every step of the run the GOP under way, once there is one, is within the size limit then in force. */
  ghost predicate GopsFit(r: RunState, ops: seq<Op>)
    decreases |ops|
  {
    ops != [] ==>
      var n := Apply(r, ops[0]);
      (HasKeyframe(n.history) ==> Size(CurrentGop(n.history)) <= n.s.config.maxBufferSize) && GopsFit(n, ops[1..])
  }

  /** A keyframe that arrived is still in the buffer. */
  ghost predicate Joinable(r: RunState) {
    Caches(r) && (HasKeyframe(r.history) ==> HasKeyframe(r.s.frames))
  }

  lemma EvictStaysJoinable(config: Config, frames: seq<Frame>, history: seq<Frame>)
    requires IsSuffix(frames, history) && HasKeyframe(frames)
    requires Size(CurrentGop(history)) <= config.maxBufferSize
    ensures HasKeyframe(frames[Evicted(config, frames)..])
  {
    hide Size, IsVideoKey, Evicted, LastKeyframe;
    var n := |history| - |frames|;
    LastKeyframeIs(frames);
    var k := LastKeyframe(frames);
    assert history[n + k] == frames[k];
    assert HasKeyframe(history);
    LastKeyframeOfRest(history, n);
    LastKeyframeWithin(history);
    assert frames[k..] == history[n + k..];
    KeepsLastKeyframe(config, frames);
  }

  lemma JoinableStep(r: RunState, op: Op)
    requires Joinable(r)
    requires var n := Apply(r, op); HasKeyframe(n.history) ==> Size(CurrentGop(n.history)) <= n.s.config.maxBufferSize
    ensures Joinable(Apply(r, op))
  {
    hide Size, CurrentGop, Evicted, IsVideoKey, LastKeyframe, Caches;
    CacheStep(r, op);
    match op
    case Push(frame) =>
      var all, h := r.s.frames + [frame], r.history + [frame];
      if HasKeyframe(h) {
        assert HasKeyframe(all) by {
          LastKeyframeAppend(r.s.frames, frame);
          LastKeyframeAppend(r.history, frame);
        }
        assert IsSuffix(all, h) by { assert Caches(r); AppendSuffix(r, frame); }
        EvictStaysJoinable(r.s.config, all, h);
      }
    case SetConfig(config) =>
      if HasKeyframe(r.history) {
        assert IsSuffix(r.s.frames, r.history) by { AppendSuffix(r, Frame(Data, 0, [], false)); }
        EvictStaysJoinable(config, r.s.frames, r.history);
      }
    case Clear =>
      NoFrames(r);
  }

  lemma AppendSuffix(r: RunState, frame: Frame)
    requires Caches(r)
    ensures IsSuffix(r.s.frames, r.history) && IsSuffix(r.s.frames + [frame], r.history + [frame])
  {}

  lemma NoFrames(r: RunState)
    ensures !HasKeyframe(Apply(r, Clear).history)
  {}

  lemma {:induction false} StaysJoinableFrom(r: RunState, ops: seq<Op>)
    requires Joinable(r) && GopsFit(r, ops)
    ensures Joinable(ApplyAll(r, ops))
    decreases |ops|
  {
    hide Joinable, Apply, Size, CurrentGop;
    if ops != [] {
      JoinableStep(r, ops[0]);
      StaysJoinableFrom(Apply(r, ops[0]), ops[1..]);
    }
  }

  /** While no GOP grows over the size limit, a joiner gets the whole GOP under way once a keyframe has arrived. */
  lemma StaysJoinable(config: Config, ops: seq<Op>)
    requires GopsFit(Fresh(config), ops)
    ensures var r := ApplyAll(Fresh(config), ops);
            HasKeyframe(r.history) ==> FromLastKeyframe(r.s) == CurrentGop(r.history) && FromLastKeyframe(r.s) != []
  {
    hide Apply, CurrentGop, FromLastKeyframe, GopsFit, LastKeyframe, Size;
    assert Joinable(Fresh(config)) by {
      assert !HasKeyframe([]);
    }
    StaysJoinableFrom(Fresh(config), ops);
    CacheAnswers(ApplyAll(Fresh(config), ops));
  }

  /** One GOP over the limit loses its only keyframe, and joiners get nothing. */
  lemma OversizeGopIsLost()
    ensures var config := Config(1000, 1);
            var key, inter := Frame(Video, 0, [0], true), Frame(Video, 40, [0], false);
            var r := ApplyAll(Fresh(config), [Push(key), Push(inter)]);
            HasKeyframe(r.history) && r.s.frames == [inter] && FromLastKeyframe(r.s) == []
  {
    var config := Config(1000, 1);
    var key, inter := Frame(Video, 0, [0], true), Frame(Video, 40, [0], false);
    var r1 := Apply(Fresh(config), Push(key));
    assert [] + [key] == [key] && [key][1..] == [] && [key][0..] == [key];
    assert Size([key]) == 1;
    assert MinTimestamp([]) == 0xFFFF_FFFF && MaxTimestamp([]) == 0;
    assert Span([key]) == 0;
    assert Evicted(config, [key]) == 0;
    assert r1.s.frames == [key] && r1.history == [key];
    var all := [key] + [inter];
    assert all[1..] == [inter] && [inter][1..] == [];
    assert Size(all) == 2 && Size([inter]) == 1;
    assert KeyframesFrom([inter], 1) == [];
    assert |Keyframes(all)| == 1;
    assert FrontDrops(all, 1) == 1;
    assert Evicted(config, all) == 1;
    var r2 := Apply(r1, Push(inter));
    assert r2.s.frames == [inter];
    assert IsVideoKey(all[0]);
    assert r2.history == all;
    var ops := [Push(key), Push(inter)];
    assert ops[1..] == [Push(inter)] && ops[1..][1..] == [];
    assert ApplyAll(Fresh(config), ops) == ApplyAll(r1, ops[1..]) == ApplyAll(r2, []) == r2;
  }
}
