/** What a joiner is sent, told from the events of the run alone; and what those who left are not. */
module JoinerView {
  import opened Bytes
  import opened Media
  import opened Options
  import opened Streams
  import opened SubscriberManager
  import opened MediaDistribution
  import GopBuffer
  import GopRun
  import SubscriberBuffer

  // ----- the stream's cache, event by event

  function Last(events: seq<Event>): Event
    requires events != []
  {
    events[|events| - 1]
  }

  function Front(events: seq<Event>): seq<Event>
    requires events != []
  {
    events[..|events| - 1]
  }

  /** The cache last installed for the stream, and the events since. */
  function Installed(key: StreamKey, events: seq<Event>): Option<Cache> {
    if events == [] then None
    else if Last(events).SetGOPBuffer? && Last(events).key == key then Last(events).cache
    else Installed(key, Front(events))
  }

  /** Whether metadata was set since the cache was installed, or came with it. */
  predicate MetadataSet(key: StreamKey, events: seq<Event>) {
    events != []
    && (Last(events) == SetMetadata(key)
        || (if Last(events).SetGOPBuffer? && Last(events).key == key
            then Last(events).cache.Some? && Last(events).cache.value.hasMetadata
            else MetadataSet(key, Front(events))))
  }

  /** The sequence headers last set, video first, or those that came with the cache. */
  function HeadersSet(key: StreamKey, events: seq<Event>): (seq<byte>, seq<byte>) {
    if events == [] then ([], [])
    else
      var e := Last(events);
      if e.SetSequenceHeaders? && e.key == key then (e.video, e.audio)
      else if e.SetGOPBuffer? && e.key == key then
        if e.cache.Some? then (e.cache.value.videoHeader, e.cache.value.audioHeader) else ([], [])
      else HeadersSet(key, Front(events))
  }

  /** What has been done to the stream's buffer since it was installed. */
  function GopOps(key: StreamKey, events: seq<Event>): seq<GopRun.Op> {
    if events == [] || (Last(events).SetGOPBuffer? && Last(events).key == key) then []
    else
      var e := Last(events);
      GopOps(key, Front(events))
      + (if e.Distribute? && e.key == key then [GopRun.Push(e.frame)]
         else if e.ConfigureGOP? && e.key == key then [GopRun.SetConfig(e.gopConfig)]
         else if e == ClearGOP(key) then [GopRun.Clear]
         else [])
  }

  /** The buffer as installed, after all that was done to it. */
  ghost function GopAfter(gop: GopBuffer.State, ops: seq<GopRun.Op>): GopBuffer.State {
    GopRun.ApplyAll(GopRun.RunState(gop, gop.frames), ops).s
  }

  ghost predicate CacheFromEvents(w: World, key: StreamKey, events: seq<Event>) {
    var cache := CacheOf(w, key);
    && (cache.Some? <==> Installed(key, events).Some?)
    && (cache.Some? ==>
          cache.value == Cache(GopAfter(Installed(key, events).value.gop, GopOps(key, events)), MetadataSet(key, events),
                               HeadersSet(key, events).0, HeadersSet(key, events).1))
  }

  lemma {:induction false} ApplyOneMore(r: GopRun.RunState, ops: seq<GopRun.Op>, op: GopRun.Op)
    ensures GopRun.ApplyAll(r, ops + [op]) == GopRun.Apply(GopRun.ApplyAll(r, ops), op)
    decreases |ops|
  {
    hide GopRun.Apply;
    if ops == [] {
      assert ops + [op] == [op] && [op][1..] == [];
    } else {
      assert (ops + [op])[1..] == ops[1..] + [op];
      ApplyOneMore(GopRun.Apply(r, ops[0]), ops[1..], op);
    }
  }

  lemma {:induction false} RunOneMore(w: World, events: seq<Event>, e: Event)
    ensures Run(w, events + [e]) == Step(Run(w, events), e)
    decreases |events|
  {
    hide Step;
    if events == [] {
      assert events + [e] == [e] && [e][1..] == [];
    } else {
      assert (events + [e])[1..] == events[1..] + [e];
      RunOneMore(Step(w, events[0]), events[1..], e);
    }
  }

  lemma NothingApplied(gop: GopBuffer.State)
    ensures GopAfter(gop, []) == gop
  {}

  lemma OneEventMore(w: World, key: StreamKey, events: seq<Event>)
    requires events != [] && CacheFromEvents(w, key, Front(events))
    ensures CacheFromEvents(Step(w, Last(events)), key, events)
  {
    hide GopRun.ApplyAll, SentAll, Added, Removed, Ended, Taken, Delivered, CachedFrames, GopBuffer.Pushed, GopBuffer.Evict,
         GopBuffer.Holding, Subscribers;
    var e := Last(events);
    var before := Front(events);
    assert GopOps(key, before) + [] == GopOps(key, before);
    if e.SetGOPBuffer? && e.key == key {
      if e.cache.Some? {
        NothingApplied(e.cache.value.gop);
      }
    } else if CacheOf(w, key).Some? {
      var gop := Installed(key, before).value.gop;
      var r := GopRun.RunState(gop, gop.frames);
      if e.Distribute? && e.key == key {
        ApplyOneMore(r, GopOps(key, before), GopRun.Push(e.frame));
      } else if e.ConfigureGOP? && e.key == key {
        ApplyOneMore(r, GopOps(key, before), GopRun.SetConfig(e.gopConfig));
      } else if e == ClearGOP(key) {
        ApplyOneMore(r, GopOps(key, before), GopRun.Clear);
      }
    }
  }

  lemma {:induction false} CacheIsFromEvents(key: StreamKey, events: seq<Event>)
    ensures CacheFromEvents(Run(EMPTY, events), key, events)
    decreases |events|
  {
    hide CacheFromEvents, Step;
    if events == [] {
      NothingInstalled(key);
    } else {
      CacheIsFromEvents(key, Front(events));
      OneEventMore(Run(EMPTY, Front(events)), key, events);
      assert Front(events) + [Last(events)] == events;
      RunOneMore(EMPTY, Front(events), Last(events));
    }
  }

  lemma NothingInstalled(key: StreamKey)
    ensures CacheFromEvents(Run(EMPTY, []), key, [])
  {}

  /**
   A joiner is sent, if the stream has a buffer: a placeholder for metadata if it was set, the video header last set as a
   keyframe if there is one, the audio header last set if there is one, all at time 0, then what the buffer gives from
   its last keyframe on; and in any case every frame distributed from then on, and nothing else.
   */
  lemma JoinerIsSent(before: seq<Event>, join: Event, after: seq<Event>)
    requires join.AddSubscriber? && join.live
    requires join.id !in Run(EMPTY, before).subs.subscribers
    requires Stays(join.id, join.key, after)
    ensures var t := Run(Step(Run(EMPTY, before), join), after);
            var video, audio := HeadersSet(join.key, before).0, HeadersSet(join.key, before).1;
            join.id in t.subs.log
            && SentTo(t, join.id)
               == (match Installed(join.key, before)
                   case None => []
                   case Some(cache) =>
                     (if MetadataSet(join.key, before) then [Frame(Data, 0, [2], false)] else [])
                     + (if video == [] then [] else [Frame(Video, 0, video, true)])
                     + (if audio == [] then [] else [Frame(Audio, 0, audio, false)])
                     + GopBuffer.FromLastKeyframe(GopAfter(cache.gop, GopOps(join.key, before))))
                  + FramesOn(join.key, after)
  {
    hide Run, Step, SentTo, Stays, GopBuffer.FromLastKeyframe, GopRun.ApplyAll, Installed, MetadataSet, HeadersSet, GopOps;
    LateJoiner(before, join, after);
    CacheIsFromEvents(join.key, before);
  }

  // ----- leaving, and taking

  predicate Departs(w: World, e: Event, id: SubscriberId) {
    e == RemoveSubscriber(id) || (id in w.subs.subscribers && e == StreamEnd(w.subs.subscribers[id].key))
  }

  predicate Rejoins(id: SubscriberId, events: seq<Event>) {
    exists e :: e in events && e.AddSubscriber? && e.id == id
  }

  ghost predicate IsGone(w: World, id: SubscriberId) {
    id !in w.subs.subscribers && forall key :: id !in Subscribers(w.subs, key)
  }

  lemma DepartedIsGone(w: World, e: Event, id: SubscriberId)
    requires Consistent(w.subs) && Departs(w, e, id)
    ensures IsGone(Step(w, e), id) && Step(w, e).subs.log == w.subs.log
    ensures forall other :: other in w.subs.subscribers && !Departs(w, e, other) ==>
              other in Step(w, e).subs.subscribers && Step(w, e).subs.subscribers[other] == w.subs.subscribers[other]
  {
    hide Logged;
  }

  lemma GoneStep(w: World, e: Event, id: SubscriberId)
    requires Consistent(w.subs) && IsGone(w, id) && !(e.AddSubscriber? && e.id == id)
    ensures var t := Step(w, e);
            && IsGone(t, id) && (id in t.subs.log <==> id in w.subs.log)
            && (id in w.subs.log ==> t.subs.log[id] == w.subs.log[id])
  {
    hide Logged, SubscriberBuffer.Pushed, SubscriberBuffer.Popped, SentAll, CachedFrames, GopBuffer.Pushed, GopBuffer.Evict,
         GopBuffer.Holding;
    if e.AddSubscriber? && e.live && e.id !in w.subs.subscribers {
      AddedConsistent(w.subs, e.key, e.id, e.config);
      SentAllSpares(Added(w.subs, e.key, e.id, e.config), e.id, CachedFrames(CacheOf(w, e.key)), id);
    }
  }

  lemma {:induction false} SentAllSpares(s: State, id: SubscriberId, frames: seq<Frame>, other: SubscriberId)
    requires other != id
    ensures var t := SentAll(s, id, frames);
            && t.subscribers.Keys == s.subscribers.Keys && t.streamSubscribers == s.streamSubscribers
            && (other in t.log <==> other in s.log) && (other in s.log ==> t.log[other] == s.log[other])
    decreases |frames|
  {
    hide SubscriberBuffer.Pushed;
    if frames != [] {
      SentAllSpares(Sent(s, id, frames[0]), id, frames[1..], other);
    }
  }

  /** A subscriber that was removed, or whose stream ended, is sent nothing more, whatever follows, until it joins again. */
  lemma {:induction false} GoneIsSentNothing(w: World, events: seq<Event>, id: SubscriberId)
    requires Consistent(w.subs) && IsGone(w, id) && !Rejoins(id, events)
    ensures var t := Run(w, events);
            && IsGone(t, id) && (id in t.subs.log <==> id in w.subs.log)
            && (id in w.subs.log ==> SentTo(t, id) == SentTo(w, id))
    decreases |events|
  {
    hide Step, IsGone, Consistent;
    if events != [] {
      assert events[0] in events && forall e :: e in events[1..] ==> e in events;
      GoneStep(w, events[0], id);
      StepConsistent(w, events[0]);
      GoneIsSentNothing(Step(w, events[0]), events[1..], id);
    }
  }

  /** A pop takes the oldest frame off one queue, if there is one, and touches no other. */
  lemma PopTakesOldest(w: World, id: SubscriberId)
    ensures var t := Step(w, Pop(id));
            && t.caches == w.caches && t.subs.subscribers.Keys == w.subs.subscribers.Keys
            && (id in w.subs.subscribers && w.subs.subscribers[id].buffer.frames != [] ==>
                  w.subs.subscribers[id].buffer.frames
                    == [w.subs.subscribers[id].buffer.frames[0]] + t.subs.subscribers[id].buffer.frames)
            && forall other :: other in w.subs.subscribers && (other != id || w.subs.subscribers[id].buffer.frames == []) ==>
                 t.subs.subscribers[other] == w.subs.subscribers[other]
  {}
}
