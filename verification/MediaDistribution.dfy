/** Distribution of a stream's frames to its subscribers, and what a late joiner is sent. */
module MediaDistribution {
  import opened Bytes
  import opened Media
  import opened Options
  import opened Streams
  import opened SubscriberManager
  import GopBuffer
  import GopRun
  import SubscriberBuffer
  import SubscriberRun

  /** A GOP buffer with the metadata and sequence headers kept beside it. */
  datatype Cache = Cache(gop: GopBuffer.State, hasMetadata: bool, videoHeader: seq<byte>, audioHeader: seq<byte>)

  datatype World = World(subs: State, caches: map<StreamKey, Option<Cache>>)

  function CacheOf(w: World, key: StreamKey): Option<Cache> {
    if key in w.caches then w.caches[key] else None
  }

  /** Metadata travels as a placeholder data frame; all three carry timestamp 0. */
  function HeaderFrames(c: Cache): seq<Frame> {
    (if c.hasMetadata then [Frame(Data, 0, [2], false)] else [])
    + (if c.videoHeader != [] then [Frame(Video, 0, c.videoHeader, true)] else [])
    + (if c.audioHeader != [] then [Frame(Audio, 0, c.audioHeader, false)] else [])
  }

  function CachedFrames(cache: Option<Cache>): seq<Frame> {
    if cache.None? then [] else HeaderFrames(cache.value) + GopBuffer.FromLastKeyframe(cache.value.gop)
  }

  /** What happens to the service; a stream's GOP buffer may also be configured and cleared by whoever else holds it. */
  datatype Event =
    | AddSubscriber(key: StreamKey, id: SubscriberId, config: SubscriberBuffer.Config, live: bool)
    | RemoveSubscriber(id: SubscriberId)
    | Pop(id: SubscriberId)
    | Distribute(key: StreamKey, frame: Frame)
    | SetGOPBuffer(key: StreamKey, cache: Option<Cache>)
    | ConfigureGOP(key: StreamKey, gopConfig: GopBuffer.Config)
    | ClearGOP(key: StreamKey)
    | SetMetadata(key: StreamKey)
    | SetSequenceHeaders(key: StreamKey, video: seq<byte>, audio: seq<byte>)
    | StreamEnd(key: StreamKey)

  function WithCache(w: World, key: StreamKey, cache: Cache): World {
    w.(caches := w.caches[key := Some(cache)])
  }

  function Step(w: World, e: Event): World {
    match e
    case AddSubscriber(key, id, config, live) =>
      if !live || id in w.subs.subscribers then w
      else w.(subs := SentAll(Added(w.subs, key, id, config), id, CachedFrames(CacheOf(w, key))))
    case RemoveSubscriber(id) => w.(subs := Removed(w.subs, id))
    case Pop(id) => w.(subs := Taken(w.subs, id))
    case Distribute(key, frame) =>
      World(Delivered(w.subs, Subscribers(w.subs, key), frame),
            if CacheOf(w, key).None? then w.caches
            else w.caches[key := Some(Cached(CacheOf(w, key).value, frame))])
    case SetGOPBuffer(key, cache) => w.(caches := w.caches[key := cache])
    case ConfigureGOP(key, config) =>
      if CacheOf(w, key).None? then w
      else WithCache(w, key, CacheOf(w, key).value.(gop := GopBuffer.Evict(config, CacheOf(w, key).value.gop.frames)))
    case ClearGOP(key) =>
      if CacheOf(w, key).None? then w
      else WithCache(w, key, CacheOf(w, key).value.(gop := GopBuffer.Holding([], CacheOf(w, key).value.gop.config)))
    case SetMetadata(key) =>
      if CacheOf(w, key).None? then w else WithCache(w, key, CacheOf(w, key).value.(hasMetadata := true))
    case SetSequenceHeaders(key, video, audio) =>
      if CacheOf(w, key).None? then w
      else WithCache(w, key, CacheOf(w, key).value.(videoHeader := video, audioHeader := audio))
    case StreamEnd(key) => w.(subs := Ended(w.subs, key))
  }

  function Cached(c: Cache, frame: Frame): Cache {
    c.(gop := GopBuffer.Pushed(c.gop, frame))
  }

  function Run(w: World, events: seq<Event>): World
    decreases |events|
  {
    if events == [] then w else Run(Step(w, events[0]), events[1..])
  }

  const EMPTY: World := World(State(map[], map[], map[]), map[])

  // ----- the service

  class Distribution {
    const manager: Manager
    var streamStates: map<StreamKey, Option<Cache>>

    ghost function W(): World
      reads this, manager
    {
      World(manager.S(), streamStates)
    }

    constructor ()
      ensures Consistent(manager.S()) && W() == EMPTY && fresh(manager)
    {
      manager := new Manager();
      streamStates := map[];
    }

    method SetGOPBuffer(key: StreamKey, buffer: Option<Cache>)
      modifies this
      ensures W() == Step(old(W()), Event.SetGOPBuffer(key, buffer))
    {
      streamStates := streamStates[key := buffer];
    }

    method GetGOPBuffer(key: StreamKey) returns (buffer: Option<Cache>)
      ensures buffer == CacheOf(W(), key)
    {
      buffer := if key !in streamStates then None else streamStates[key];
    }

    /** A joiner is registered, then sent what is cached, in order. */
    method AddSubscriber(key: StreamKey, id: SubscriberId, config: SubscriberBuffer.Config, live: bool)
      returns (outcome: Outcome)
      requires Consistent(manager.S())
      modifies this, manager
      ensures Consistent(manager.S()) && W() == Step(old(W()), Event.AddSubscriber(key, id, config, live))
      ensures outcome == if !live then Failure(StreamNotFound)
                         else if id in old(manager.subscribers) then Failure(SubscriberAlreadyExists) else Success
    {
      hide Consistent, Added, SentAll, CachedFrames;
      if !live {
        return Failure(StreamNotFound);
      }
      outcome := manager.AddSubscriber(key, id, config, live);
      if outcome.Failure? {
        return;
      }
      var gopBuffer := GetGOPBuffer(key);
      if gopBuffer.Some? {
        SendCachedDataToSubscriber(id, gopBuffer.value);
      } else {
        NothingCached(manager.S(), id);
      }
    }

    method SendCachedDataToSubscriber(id: SubscriberId, gopBuffer: Cache)
      requires Consistent(manager.S())
      modifies manager
      ensures Consistent(manager.S())
      ensures manager.S() == SentAll(old(manager.S()), id, CachedFrames(Some(gopBuffer)))
    {
      hide Consistent, SentAll, GopBuffer.FromLastKeyframe;
      ghost var s := manager.S();
      ghost var done: seq<Frame> := [];
      NoneSent(s, id);
      if gopBuffer.hasMetadata {
        SendFrameToSubscriber(id, Frame(Data, 0, [2], false), s, done);
        done := done + [Frame(Data, 0, [2], false)];
      }
      if gopBuffer.videoHeader != [] {
        SendFrameToSubscriber(id, Frame(Video, 0, gopBuffer.videoHeader, true), s, done);
        done := done + [Frame(Video, 0, gopBuffer.videoHeader, true)];
      }
      if gopBuffer.audioHeader != [] {
        SendFrameToSubscriber(id, Frame(Audio, 0, gopBuffer.audioHeader, false), s, done);
        done := done + [Frame(Audio, 0, gopBuffer.audioHeader, false)];
      }
      assert done == HeaderFrames(gopBuffer);
      hide HeaderFrames;
      var cachedFrames := GopBuffer.FromLastKeyframe(gopBuffer.gop);
      var i: nat := 0;
      assert done + cachedFrames[..0] == done;
      while i < |cachedFrames|
        invariant Consistent(manager.S()) && i <= |cachedFrames|
        invariant manager.S() == SentAll(s, id, done + cachedFrames[..i])
      {
        assert (done + cachedFrames[..i]) + [cachedFrames[i]] == done + cachedFrames[..i + 1];
        SendFrameToSubscriber(id, cachedFrames[i], s, done + cachedFrames[..i]);
        i := i + 1;
      }
      assert cachedFrames[..i] == cachedFrames;
    }

    /** One more frame behind the frames `done` sent since `s`. */
    method SendFrameToSubscriber(id: SubscriberId, frame: Frame, ghost s: State, ghost done: seq<Frame>)
      requires Consistent(manager.S()) && manager.S() == SentAll(s, id, done)
      modifies manager
      ensures Consistent(manager.S()) && manager.S() == SentAll(s, id, done + [frame])
    {
      hide Consistent, Sent, SentAll;
      SentAllLast(s, id, done, frame);
      manager.PushToSubscriber(id, frame);
    }

    method RemoveSubscriber(id: SubscriberId) returns (outcome: Outcome)
      requires Consistent(manager.S())
      modifies manager
      ensures Consistent(manager.S()) && W() == Step(old(W()), Event.RemoveSubscriber(id))
      ensures outcome == if id in old(manager.subscribers) then Success else Failure(SubscriberNotFound)
    {
      hide Consistent, Removed;
      outcome := manager.RemoveSubscriber(id);
    }

    /** The frame is cached, then sent to every subscriber of the stream. */
    method Distribute(key: StreamKey, frame: Frame)
      requires Consistent(manager.S())
      modifies this, manager
      ensures Consistent(manager.S()) && W() == Step(old(W()), Event.Distribute(key, frame))
    {
      hide Logged, Sent, Delivered, GopBuffer.Pushed;
      ghost var s := manager.S();
      DeliveredToNone(s, frame);
      var gopBuffer := GetGOPBuffer(key);
      if gopBuffer.Some? {
        streamStates := streamStates[key := Some(Cached(gopBuffer.value, frame))];
      }
      ghost var states := streamStates;
      var rest := manager.GetSubscribersForStream(key);
      ghost var done: set<SubscriberId> := {};
      while rest != {}
        invariant Consistent(manager.S()) && done + rest == Subscribers(s, key) && done !! rest
        invariant streamStates == states
        invariant manager.S() == Delivered(s, done, frame)
        decreases rest
      {
        var id :| id in rest;
        DeliveredToOneMore(s, done, id, frame);
        manager.PushToSubscriber(id, frame);
        rest, done := rest - {id}, done + {id};
      }
      assert done == Subscribers(s, key);
    }

    method SetMetadata(key: StreamKey)
      modifies this
      ensures W() == Step(old(W()), Event.SetMetadata(key))
    {
      if key in streamStates && streamStates[key].Some? {
        streamStates := streamStates[key := Some(streamStates[key].value.(hasMetadata := true))];
      }
    }

    method SetSequenceHeaders(key: StreamKey, video: seq<byte>, audio: seq<byte>)
      modifies this
      ensures W() == Step(old(W()), Event.SetSequenceHeaders(key, video, audio))
    {
      if key in streamStates && streamStates[key].Some? {
        streamStates := streamStates[key := Some(streamStates[key].value.(videoHeader := video, audioHeader := audio))];
      }
    }

    /** Each of the stream's subscribers is told of the end once, then all are removed; the cache stays. */
    method OnStreamEnd(key: StreamKey) returns (notified: seq<SubscriberId>)
      requires Consistent(manager.S())
      modifies manager
      ensures Consistent(manager.S()) && W() == Step(old(W()), StreamEnd(key))
      ensures forall id :: id in notified <==> id in old(manager.subscribers) && old(manager.subscribers)[id].key == key
      ensures forall i, j :: 0 <= i < j < |notified| ==> notified[i] != notified[j]
    {
      notified := [];
      var all := manager.GetSubscribersForStream(key);
      var rest := all;
      hide Consistent, Ended;
      while rest != {}
        invariant rest <= all && forall id :: id in notified <==> id in all - rest
        invariant forall i, j :: 0 <= i < j < |notified| ==> notified[i] != notified[j]
        decreases rest
      {
        var id :| id in rest;
        assert id !in notified;
        notified := notified + [id];
        rest := rest - {id};
      }
      manager.OnStreamEnded(key);
    }
  }

  lemma NoneSent(s: State, id: SubscriberId)
    ensures SentAll(s, id, []) == s
  {}

  lemma NothingCached(s: State, id: SubscriberId)
    ensures SentAll(s, id, CachedFrames(None)) == s
  {}

  lemma {:induction false} SentAllLast(s: State, id: SubscriberId, frames: seq<Frame>, frame: Frame)
    ensures SentAll(s, id, frames + [frame]) == Sent(SentAll(s, id, frames), id, frame)
    decreases |frames|
  {
    hide Sent;
    if frames == [] {
      assert frames + [frame] == [frame] && [frame][1..] == [];
    } else {
      assert (frames + [frame])[1..] == frames[1..] + [frame];
      SentAllLast(Sent(s, id, frames[0]), id, frames[1..], frame);
    }
  }

  // ----- what a subscriber is sent

  /** All frames sent to a subscriber since it joined. */
  function SentTo(w: World, id: SubscriberId): seq<Frame>
    requires id in w.subs.log
  {
    SubscriberRun.PushedFrames(w.subs.log[id])
  }

  /** The frames distributed on a stream in the course of a run. */
  function FramesOn(key: StreamKey, events: seq<Event>): seq<Frame> {
    if events == [] then []
    else (if events[0].Distribute? && events[0].key == key then [events[0].frame] else []) + FramesOn(key, events[1..])
  }

  /** The run neither removes the subscriber nor ends its stream. */
  predicate Stays(id: SubscriberId, key: StreamKey, events: seq<Event>) {
    forall e :: e in events ==> e != RemoveSubscriber(id) && e != StreamEnd(key)
  }

  predicate Subscribed(s: State, id: SubscriberId, key: StreamKey) {
    id in s.subscribers && s.subscribers[id].key == key
  }

  lemma {:induction false} SentAllSends(s: State, id: SubscriberId, frames: seq<Frame>, other: SubscriberId)
    requires Consistent(s) && other in s.subscribers && id in s.subscribers
    ensures var t := SentAll(s, id, frames);
            && other in t.subscribers && t.subscribers[other].key == s.subscribers[other].key
            && other in t.log
            && SubscriberRun.PushedFrames(t.log[other])
               == SubscriberRun.PushedFrames(s.log[other]) + (if other == id then frames else [])
    decreases |frames|
  {
    hide Logged, SubscriberBuffer.Pushed, SubscriberRun.PushedFrames;
    if frames != [] {
      SentConsistent(s, id, frames[0]);
      var t := Sent(s, id, frames[0]);
      PushedFramesLast(s.log[id], SubscriberRun.Push(frames[0]));
      SentAllSends(t, id, frames[1..], other);
      if other == id {
        var before := SubscriberRun.PushedFrames(s.log[id]);
        assert (before + [frames[0]]) + frames[1..] == before + frames;
      }
    }
  }

  lemma StepConsistent(w: World, e: Event)
    requires Consistent(w.subs)
    ensures Consistent(Step(w, e).subs)
  {
    hide Consistent, Added, SentAll, Removed, Ended, Delivered, Taken, CachedFrames;
    match e
    case AddSubscriber(key, id, config, live) =>
      if live && id !in w.subs.subscribers {
        AddedConsistent(w.subs, key, id, config);
        SentAllConsistent(Added(w.subs, key, id, config), id, CachedFrames(CacheOf(w, key)));
      }
    case RemoveSubscriber(id) => RemovedConsistent(w.subs, id);
    case Pop(id) => TakenConsistent(w.subs, id);
    case Distribute(key, frame) => DeliveredConsistent(w.subs, Subscribers(w.subs, key), frame);
    case StreamEnd(key) => EndedConsistent(w.subs, key);
    case SetGOPBuffer(_, _) =>
    case ConfigureGOP(_, _) =>
    case ClearGOP(_) =>
    case SetMetadata(_) =>
    case SetSequenceHeaders(_, _, _) =>
  }

  lemma {:induction false} RunConsistent(w: World, events: seq<Event>)
    requires Consistent(w.subs)
    ensures Consistent(Run(w, events).subs)
    decreases |events|
  {
    hide Consistent, Step;
    if events != [] {
      StepConsistent(w, events[0]);
      RunConsistent(Step(w, events[0]), events[1..]);
    }
  }

  /** The events that concern a stream's cache only. */
  predicate CacheOnly(e: Event) {
    e.SetGOPBuffer? || e.ConfigureGOP? || e.ClearGOP? || e.SetMetadata? || e.SetSequenceHeaders?
  }

  lemma CacheOnlySendsNothing(w: World, e: Event)
    requires CacheOnly(e)
    ensures Step(w, e).subs == w.subs
  {}

  /** One event sends a standing subscriber exactly what it distributes on its stream. */
  lemma StepSends(w: World, e: Event, id: SubscriberId, key: StreamKey)
    requires Consistent(w.subs) && Subscribed(w.subs, id, key)
    requires e != RemoveSubscriber(id) && e != StreamEnd(key)
    ensures var t := Step(w, e);
            && Subscribed(t.subs, id, key) && id in t.subs.log
            && SentTo(t, id) == SentTo(w, id) + (if e.Distribute? && e.key == key then [e.frame] else [])
  {
    hide Logged, SubscriberBuffer.Pushed, SubscriberBuffer.Popped, SubscriberRun.PushedFrames, SentAll, CachedFrames,
         GopBuffer.Pushed, GopBuffer.Evict, GopBuffer.Holding;
    var log := w.subs.log[id];
    assert SentTo(w, id) + [] == SentTo(w, id);
    if CacheOnly(e) {
      CacheOnlySendsNothing(w, e);
      hide Step;
    } else if e.AddSubscriber? {
      JoinSendsOthersNothing(w, e, id);
      hide Step;
    } else {
      match e
      case Distribute(k, frame) => PushedFramesLast(log, SubscriberRun.Push(frame));
      case Pop(other) => PushedFramesLast(log, SubscriberRun.Pop);
      case RemoveSubscriber(_) =>
      case StreamEnd(k) => assert id !in Subscribers(w.subs, k);
    }
  }

  lemma JoinSendsOthersNothing(w: World, e: Event, id: SubscriberId)
    requires Consistent(w.subs) && id in w.subs.subscribers && e.AddSubscriber?
    ensures var t := Step(w, e);
            && id in t.subs.subscribers && t.subs.subscribers[id].key == w.subs.subscribers[id].key
            && id in t.subs.log && id in w.subs.log && SentTo(t, id) == SentTo(w, id)
  {
    hide Logged, SubscriberBuffer.Pushed, SubscriberRun.PushedFrames, SentAll, CachedFrames;
    if e.live && e.id !in w.subs.subscribers {
      AddedConsistent(w.subs, e.key, e.id, e.config);
      SentAllSends(Added(w.subs, e.key, e.id, e.config), e.id, CachedFrames(CacheOf(w, e.key)), id);
    }
  }

  lemma {:induction false} RunSends(w: World, events: seq<Event>, id: SubscriberId, key: StreamKey)
    requires Consistent(w.subs) && Subscribed(w.subs, id, key) && Stays(id, key, events)
    ensures var t := Run(w, events);
            && Consistent(t.subs) && Subscribed(t.subs, id, key)
            && SentTo(t, id) == SentTo(w, id) + FramesOn(key, events)
    decreases |events|
  {
    hide Step, Logged, Consistent, SubscriberRun.PushedFrames;
    InLog(w, id);
    if events != [] {
      assert events[0] in events;
      StepConsistent(w, events[0]);
      StepSends(w, events[0], id, key);
      assert Stays(id, key, events[1..]) by {
        forall e | e in events[1..] ensures e != RemoveSubscriber(id) && e != StreamEnd(key) { assert e in events; }
      }
      RunSends(Step(w, events[0]), events[1..], id, key);
      InLog(Run(w, events), id);
      var before, rest := SentTo(w, id), FramesOn(key, events[1..]);
      var now := if events[0].Distribute? && events[0].key == key then [events[0].frame] else [];
      assert (before + now) + rest == before + (now + rest);
    }
  }

  lemma InLog(w: World, id: SubscriberId)
    requires Consistent(w.subs) && id in w.subs.subscribers
    ensures id in w.subs.log
  {
    hide Logged;
  }

  /** What a joiner is sent before anything else. */
  lemma JoinSends(w: World, e: Event)
    requires Consistent(w.subs) && e.AddSubscriber? && e.live && e.id !in w.subs.subscribers
    ensures var t := Step(w, e);
            && Consistent(t.subs) && Subscribed(t.subs, e.id, e.key) && e.id in t.subs.log
            && SentTo(t, e.id) == CachedFrames(CacheOf(w, e.key))
  {
    hide Logged, SentAll, CachedFrames, GopBuffer.Pushed;
    AddedConsistent(w.subs, e.key, e.id, e.config);
    SentAllConsistent(Added(w.subs, e.key, e.id, e.config), e.id, CachedFrames(CacheOf(w, e.key)));
    SentAllSends(Added(w.subs, e.key, e.id, e.config), e.id, CachedFrames(CacheOf(w, e.key)), e.id);
    assert SubscriberRun.PushedFrames([]) == [];
  }

  /**
   As long as it stays, a subscriber has been sent the cached metadata, headers and frames of the moment it
   joined, then every frame distributed on its stream since, in order, and nothing else.
   */
  lemma LateJoiner(before: seq<Event>, join: Event, after: seq<Event>)
    requires join.AddSubscriber? && join.live
    requires join.id !in Run(EMPTY, before).subs.subscribers
    requires Stays(join.id, join.key, after)
    ensures var w := Run(EMPTY, before);
            var t := Run(Step(w, join), after);
            && Subscribed(t.subs, join.id, join.key) && join.id in t.subs.log
            && SentTo(t, join.id) == CachedFrames(CacheOf(w, join.key)) + FramesOn(join.key, after)
  {
    hide Step, Logged, SubscriberRun.PushedFrames, CachedFrames, SentTo, Stays;
    var w := Run(EMPTY, before);
    RunConsistent(EMPTY, before);
    hide Run;
    JoinSends(w, join);
    RunSends(Step(w, join), after, join.id, join.key);
    InLog(Run(Step(w, join), after), join.id);
  }

  // ----- no gap between cache and stream

  function SeenNext(key: StreamKey, h: seq<Frame>, e: Event): seq<Frame> {
    if e.Distribute? && e.key == key then h + [e.frame]
    else if e.SetGOPBuffer? && e.key == key then (if e.cache.Some? then e.cache.value.gop.frames else [])
    else if e.ClearGOP? && e.key == key then []
    else h
  }

  /** The frames a stream's cache has seen since it was last cleared: those its buffer came with, then those distributed. */
  function Seen(key: StreamKey, h: seq<Frame>, events: seq<Event>): seq<Frame>
    decreases |events|
  {
    if events == [] then h else Seen(key, SeenNext(key, h, events[0]), events[1..])
  }

  /** Buffers are installed with a byte count and index that fit their frames. */
  predicate InstallsValid(events: seq<Event>) {
    forall e :: e in events && e.SetGOPBuffer? && e.cache.Some? ==>
      var gop := e.cache.value.gop; gop == GopBuffer.Holding(gop.frames, gop.config)
  }

  ghost predicate CacheFollows(w: World, key: StreamKey, h: seq<Frame>) {
    CacheOf(w, key).Some? ==> GopRun.Caches(GopRun.RunState(CacheOf(w, key).value.gop, h))
  }

  lemma CacheSeesStep(w: World, key: StreamKey, h: seq<Frame>, e: Event)
    requires CacheFollows(w, key, h) && InstallsValid([e])
    ensures CacheFollows(Step(w, e), key, SeenNext(key, h, e))
  {
    hide SentAll, Added, Removed, Ended, Taken, Delivered, CachedFrames, GopBuffer.Pushed, GopBuffer.Holding, Subscribers;
    assert e in [e];
    if e.Distribute? && e.key == key && CacheOf(w, key).Some? {
      GopRun.CacheStep(GopRun.RunState(CacheOf(w, key).value.gop, h), GopRun.Push(e.frame));
    } else if e.ConfigureGOP? && e.key == key && CacheOf(w, key).Some? {
      GopRun.CacheStep(GopRun.RunState(CacheOf(w, key).value.gop, h), GopRun.SetConfig(e.gopConfig));
    } else if e.ClearGOP? && e.key == key && CacheOf(w, key).Some? {
      GopRun.CacheStep(GopRun.RunState(CacheOf(w, key).value.gop, h), GopRun.Clear);
    }
  }

  lemma {:induction false} CacheSees(w: World, key: StreamKey, h: seq<Frame>, events: seq<Event>)
    requires CacheFollows(w, key, h) && InstallsValid(events)
    ensures CacheFollows(Run(w, events), key, Seen(key, h, events))
    decreases |events|
  {
    hide Step, SeenNext, CacheFollows;
    if events != [] {
      assert InstallsValid([events[0]]) && InstallsValid(events[1..]) by {
        assert events[0] in events && forall f :: f in events[1..] ==> f in events;
      }
      CacheSeesStep(w, key, h, events[0]);
      CacheSees(Step(w, events[0]), key, SeenNext(key, h, events[0]), events[1..]);
    }
  }

  /**
   A joiner that is given frames from the last keyframe sees the stream without gap or repeat: those frames and
   what follows them are the stream's own history from that keyframe on.
   */
  lemma GaplessJoin(before: seq<Event>, join: Event, after: seq<Event>)
    requires InstallsValid(before)
    requires join.AddSubscriber? && join.live
    requires join.id !in Run(EMPTY, before).subs.subscribers
    requires Stays(join.id, join.key, after)
    requires CacheOf(Run(EMPTY, before), join.key).Some?
    ensures var w := Run(EMPTY, before);
            var t := Run(Step(w, join), after);
            var cache := CacheOf(w, join.key).value;
            var live := GopBuffer.FromLastKeyframe(cache.gop);
            var history := Seen(join.key, [], before);
            && join.id in t.subs.log
            && SentTo(t, join.id) == HeaderFrames(cache) + live + FramesOn(join.key, after)
            && (live != [] ==>
                  && GopBuffer.IsLastKeyframe(history, GopBuffer.LastKeyframe(history))
                  && live + FramesOn(join.key, after)
                     == (history + FramesOn(join.key, after))[GopBuffer.LastKeyframe(history)..])
  {
    hide Step, SubscriberRun.PushedFrames, HeaderFrames, SentTo, Stays, GopBuffer.FromLastKeyframe, GopBuffer.LastKeyframe,
         Seen, FramesOn, Consistent, InstallsValid, GopRun.Caches, GopBuffer.HasKeyframe;
    LateJoiner(before, join, after);
    var history := Seen(join.key, [], before);
    CacheSees(EMPTY, join.key, [], before);
    hide Run;
    var w := Run(EMPTY, before);
    var r := GopRun.RunState(CacheOf(w, join.key).value.gop, history);
    GopRun.CacheAnswers(r);
    GopBuffer.LastKeyframeIs(history);
    var k := GopBuffer.LastKeyframe(history);
    var later := FramesOn(join.key, after);
    if GopBuffer.FromLastKeyframe(r.s) != [] {
      GopRun.LastKeyframeWithin(history);
      assert (history + later)[k..] == history[k..] + later;
    }
  }

  // ----- what reaches a subscriber

  /**
   End to end: what a subscriber has popped, followed by what its queue holds, is all it was sent, in order,
   with only video inter frames left out, and audio frames if its configuration does not preserve them.
   */
  lemma ReachesSubscriber(events: seq<Event>, id: SubscriberId)
    requires id in Run(EMPTY, events).subs.subscribers
    ensures var w := Run(EMPTY, events);
            && id in w.subs.log
            && var entry := w.subs.subscribers[id];
            && var popped := SubscriberRun.ApplyAll(SubscriberRun.Fresh(entry.config), w.subs.log[id]).popped;
            SubscriberRun.Omits(popped + entry.buffer.frames, SentTo(w, id),
                                !entry.config.preserveAudio)
  {
    hide Step, SubscriberRun.PushedFrames, SubscriberRun.ApplyAll, SubscriberRun.Omits, SubscriberRun.Essential;
    RunConsistent(EMPTY, events);
    hide Run;
    var w := Run(EMPTY, events);
    assert Logged(w.subs.subscribers[id], w.subs.log[id]);
    SubscriberRun.DeliveryAndConservation(w.subs.subscribers[id].config, w.subs.log[id]);
  }
}
