/** When every live stream is found by its stream id, over runs of many sessions. */
module StreamLookup {
  import opened Bytes
  import opened Options
  import opened Streams
  import opened StreamRegistry
  import opened CommandHandler
  import opened CommandSessions

  /** Every live stream is the one its id leads to. */
  ghost predicate AllFound(r: State) {
    forall key :: key in r.streams ==>
      r.streams[key].streamId in r.streamIdIndex && r.streamIdIndex[r.streams[key].streamId] == key
  }

  /** A publish that succeeds although a live stream is already indexed under the session's id. */
  predicate PublishesOver(w: World, e: Event) {
    e.Send? && e.command.Publish? && e.c in w.sessions
    && var s := w.sessions[e.c];
       s.streamId != 0 && e.command.name != "" && StreamKey(s.appName, e.command.name) !in w.registry.streams
       && s.streamId in w.registry.streamIdIndex
  }

  lemma RegisteredFoundIff(r: State, key: StreamKey, id: StreamId, publisher: ConnectionId)
    requires Indexed(r) && AllFound(r) && key !in r.streams
    ensures AllFound(Registered(r, key, id, publisher)) <==> id !in r.streamIdIndex
  {
    var t := Registered(r, key, id, publisher);
    assert key in t.streams && t.streams[key].streamId == id;
    if id in r.streamIdIndex {
      assert r.streamIdIndex[id] in r.streams;
    } else {
      assert forall k :: k in r.streams ==> r.streams[k].streamId != id;
    }
  }

  lemma VacatedFound(c: ConnectionId, s: Session, r: State)
    requires AllFound(r)
    ensures AllFound(Vacated(c, s, r))
  {
    var t := Vacated(c, s, r);
    forall key | key in t.streams
      ensures t.streams[key].streamId in t.streamIdIndex && t.streamIdIndex[t.streams[key].streamId] == key
    {
      assert key in r.streams && r.streams[key].streamId == t.streams[key].streamId;
    }
  }

  /** One event keeps all live streams findable if and only if it does not publish over a live stream's id. */
  lemma StepFoundIff(w: World, e: Event)
    requires Sound(w) && AllFound(w.registry)
    ensures AllFound(Step(w, e).registry) <==> !PublishesOver(w, e)
  {
    hide ValidAppName, Vacated, Registered;
    if e.Send? && e.c in w.sessions {
      var s, r := w.sessions[e.c], w.registry;
      VacatedFound(e.c, s, r);
      match e.command {
        case Publish(name) =>
          if StreamKey(s.appName, name) !in r.streams {
            RegisteredFoundIff(r, StreamKey(s.appName, name), s.streamId, e.c);
          }
        case Connect(_) =>
        case CreateStream =>
        case Play(_) =>
        case DeleteStream(_) =>
        case CloseStream =>
        case Acknowledged =>
        case Other =>
      }
    }
  }

  ghost predicate FoundThroughout(w: World, events: seq<Event>)
    decreases |events|
  {
    AllFound(w.registry) && (events != [] ==> FoundThroughout(Step(w, events[0]), events[1..]))
  }

  predicate NeverPublishesOver(w: World, events: seq<Event>)
    decreases |events|
  {
    events != [] ==> !PublishesOver(w, events[0]) && NeverPublishesOver(Step(w, events[0]), events[1..])
  }

  lemma {:induction false} FoundThroughoutFrom(w: World, events: seq<Event>)
    requires Sound(w) && AllFound(w.registry)
    ensures FoundThroughout(w, events) <==> NeverPublishesOver(w, events)
    decreases |events|
  {
    hide Sound, AllFound, Step, PublishesOver;
    if events != [] {
      var t := Step(w, events[0]);
      StepFoundIff(w, events[0]);
      StepSound(w, events[0]);
      if PublishesOver(w, events[0]) {
        NotFoundNow(t, events[1..]);
      } else {
        FoundThroughoutFrom(t, events[1..]);
      }
    }
  }

  lemma NotFoundNow(w: World, events: seq<Event>)
    requires !AllFound(w.registry)
    ensures !FoundThroughout(w, events)
  {
    hide AllFound;
  }

  lemma NobodySound()
    ensures Sound(NOBODY) && AllFound(NOBODY.registry)
  {}

  /** Over any run: all live streams are found by their ids at all times if and only if no publish is over a live one's id. */
  lemma FoundThroughoutIff(events: seq<Event>)
    ensures FoundThroughout(NOBODY, events) <==> NeverPublishesOver(NOBODY, events)
  {
    hide FoundThroughout, NeverPublishesOver;
    NobodySound();
    FoundThroughoutFrom(NOBODY, events);
  }

  // ----- in terms of what each session does

  /** Ids of live streams are not pooled, not still to come, and held by no session but their publisher. */
  ghost predicate LiveApart(w: World) {
    forall key :: key in w.registry.streams ==>
      var info := w.registry.streams[key];
      && 0 < info.streamId < w.registry.nextStreamId && info.streamId !in w.registry.releasedIds
      && forall c :: c in w.sessions && w.sessions[c].streamId == info.streamId ==> info.publisherId == c
  }

  /** The session still has a live stream under its id. */
  ghost predicate HasLive(w: World, c: ConnectionId)
    requires c in w.sessions
  {
    exists key :: key in w.registry.streams && w.registry.streams[key].streamId == w.sessions[c].streamId
                  && w.registry.streams[key].publisherId == c
  }

  /** What the session gives up in a deleteStream is no live stream's id, once its own publication is ended. */
  ghost predicate SparesLive(w: World, c: ConnectionId, target: StreamId)
    requires c in w.sessions
  {
    var s := w.sessions[c];
    var id := if target == 0 then s.streamId else target;
    forall key :: key in Vacated(c, s, w.registry).streams ==> Vacated(c, s, w.registry).streams[key].streamId != id
  }

  /** A session publishes only when it has nothing live under its id, and deletes only harmless ids. */
  ghost predicate Tidy(w: World, e: Event) {
    e.Send? && e.c in w.sessions ==>
      && (e.command.Publish? ==> !HasLive(w, e.c))
      && (e.command.DeleteStream? ==> MayDelete(w, e.c, e.command.target) && SparesLive(w, e.c, e.command.target))
  }

  ghost predicate TidyThroughout(w: World, events: seq<Event>)
    decreases |events|
  {
    events != [] ==> Tidy(w, events[0]) && TidyThroughout(Step(w, events[0]), events[1..])
  }

  lemma TidyPublishesNotOver(w: World, e: Event)
    requires Sound(w) && LiveApart(w) && Tidy(w, e)
    ensures !PublishesOver(w, e)
  {}

  /** Vacating leaves the other streams as they are. */
  lemma VacatedStreams(c: ConnectionId, s: Session, r: State)
    ensures var t := Vacated(c, s, r);
            && t.releasedIds == r.releasedIds && t.nextStreamId == r.nextStreamId
            && forall key :: key in t.streams ==>
                 key in r.streams && t.streams[key].streamId == r.streams[key].streamId
                 && t.streams[key].publisherId == r.streams[key].publisherId
  {}

  lemma CreateKeepsLive(w: World, c: ConnectionId)
    requires IdsApart(w) && LiveApart(w) && c in w.sessions && 0 < w.registry.nextStreamId
    requires w.registry.releasedIds == [] ==> w.registry.nextStreamId + 1 < TWO_TO_THE_32
    ensures LiveApart(Step(w, Send(c, CreateStream)))
  {
    var r := w.registry;
    var t := Step(w, Send(c, CreateStream));
    if w.sessions[c].appName == "" {
      assert t.sessions == w.sessions;
    } else {
      var id := AllocatedId(r);
      assert r.releasedIds != [] ==> id in r.releasedIds;
      assert forall x :: x in t.registry.releasedIds ==> x in r.releasedIds;
      assert t.registry.streams == r.streams && r.nextStreamId <= t.registry.nextStreamId;
      assert forall key :: key in r.streams ==> r.streams[key].streamId != id;
      hide AllocatedId, Allocated;
    }
  }

  lemma PublishKeepsLive(w: World, c: ConnectionId, name: string)
    requires IdsApart(w) && LiveApart(w) && c in w.sessions
    ensures LiveApart(Step(w, Send(c, Publish(name))))
  {
    hide ValidAppName;
    var t := Step(w, Send(c, Publish(name)));
    assert forall d :: d in t.sessions ==> t.sessions[d].streamId == w.sessions[d].streamId;
  }

  lemma DeleteKeepsLive(w: World, c: ConnectionId, target: StreamId)
    requires LiveApart(w) && c in w.sessions && SparesLive(w, c, target)
    ensures LiveApart(Step(w, Send(c, DeleteStream(target))))
  {
    var s := w.sessions[c];
    var t := Step(w, Send(c, DeleteStream(target)));
    VacatedStreams(c, s, w.registry);
    hide Vacated;
    var id := if target == 0 then s.streamId else target;
    if id == 0 {
      assert t.sessions == w.sessions;
    } else {
      assert t.registry.streams == Vacated(c, s, w.registry).streams;
      assert t.registry.releasedIds == w.registry.releasedIds + [id];
      assert forall d :: d in t.sessions && t.sessions[d].streamId != 0 ==> t.sessions[d].streamId == w.sessions[d].streamId;
    }
  }

  lemma OtherKeepsLive(w: World, c: ConnectionId, command: Command)
    requires LiveApart(w) && c in w.sessions
    requires !command.CreateStream? && !command.DeleteStream? && !command.Publish?
    ensures LiveApart(Step(w, Send(c, command)))
  {
    hide ValidAppName;
    var t := Step(w, Send(c, command));
    VacatedStreams(c, w.sessions[c], w.registry);
    hide Vacated;
    assert t.sessions[c].streamId == w.sessions[c].streamId;
    assert t.registry.releasedIds == w.registry.releasedIds && t.registry.nextStreamId == w.registry.nextStreamId;
    assert forall key :: key in t.registry.streams ==>
        key in w.registry.streams && t.registry.streams[key].streamId == w.registry.streams[key].streamId
        && t.registry.streams[key].publisherId == w.registry.streams[key].publisherId;
    hide Processed;
  }

  lemma OpenKeepsLive(w: World, c: ConnectionId)
    requires LiveApart(w)
    ensures LiveApart(Step(w, Open(c)))
  {}

  lemma StepKeepsLive(w: World, e: Event)
    requires IdsApart(w) && LiveApart(w) && Tidy(w, e)
    requires 0 < w.registry.nextStreamId && w.registry.nextStreamId + Creates([e]) < TWO_TO_THE_32
    ensures LiveApart(Step(w, e))
  {
    hide IdsApart, LiveApart, MayDelete, SparesLive, HasLive, Processed;
    match e
    case Open(c) => OpenKeepsLive(w, c);
    case Send(c, command) =>
      if c in w.sessions {
        if command.CreateStream? {
          assert Creates([e]) == 1;
          CreateKeepsLive(w, c);
        } else if command.DeleteStream? {
          DeleteKeepsLive(w, c, command.target);
        } else if command.Publish? {
          PublishKeepsLive(w, c, command.name);
        } else {
          OtherKeepsLive(w, c, command);
        }
      }
  }

  lemma TidyMayDelete(w: World, e: Event)
    requires Tidy(w, e)
    ensures MayDeleteAll(w, [e])
  {
    hide MayDelete, SparesLive, HasLive;
  }

  lemma {:induction false} TidyFindsFrom(w: World, events: seq<Event>)
    requires Sound(w) && IdsApart(w) && LiveApart(w) && TidyThroughout(w, events)
    requires 0 < w.registry.nextStreamId && w.registry.nextStreamId + Creates(events) < TWO_TO_THE_32
    ensures NeverPublishesOver(w, events)
    decreases |events|
  {
    hide Sound, IdsApart, LiveApart, Tidy, Step, PublishesOver, MayDeleteAll;
    if events != [] {
      var e := events[0];
      assert [e][1..] == [] && Creates([e]) + Creates(events[1..]) == Creates(events);
      TidyPublishesNotOver(w, e);
      TidyMayDelete(w, e);
      StepSound(w, e);
      StepKeepsApart(w, e);
      StepKeepsLive(w, e);
      TidyFindsFrom(Step(w, e), events[1..]);
    }
  }

  /**
   If no session publishes while it has a live stream under its id, every deleteStream is harmless, for live streams
   too, and the 32-bit counter has not come round, then every live stream is found by its id at all times.
   */
  lemma TidySessionsAreFound(events: seq<Event>)
    requires Creates(events) < TWO_TO_THE_32 - 1 && TidyThroughout(NOBODY, events)
    ensures FoundThroughout(NOBODY, events)
  {
    hide FoundThroughout, NeverPublishesOver, TidyThroughout, Creates;
    NobodySound();
    TidyFindsFrom(NOBODY, events);
    FoundThroughoutFrom(NOBODY, events);
  }

  lemma RunOne(w: World, e: Event, rest: seq<Event>)
    ensures Run(w, [e] + rest) == Run(Step(w, e), rest)
  {
    hide Step;
    assert ([e] + rest)[1..] == rest;
  }

  const A: StreamKey := StreamKey("live", "a")
  const B: StreamKey := StreamKey("live", "b")

  /** Session 1 publishes "a" under id 1. */
  const ONE_LIVE: World := World(map[1 := Session(Publishing, "live", 1, "a")],
                                 State(map[A := StreamInfo(1, 1, {})], map[1 := A], 2, []))

  lemma PublishesFirst()
    ensures Step(Step(Step(Step(NOBODY, Open(1)), Send(1, Connect("live"))), Send(1, CreateStream)), Send(1, Publish("a"))) == ONE_LIVE
  {
    assert ValidAppName("live");
    var w := Step(Step(NOBODY, Open(1)), Send(1, Connect("live")));
    assert w.sessions == map[1 := Session(Connected, "live", 0, "")] && w.registry == EMPTY;
  }

  lemma PublishesAgainAndCloses()
    ensures var r := Step(Step(ONE_LIVE, Send(1, Publish("b"))), Send(1, CloseStream)).registry;
            r.streams == map[A := StreamInfo(1, 1, {})] && FoundById(r, 1) == None
  {
    assert A.name[0] != B.name[0];
    var w := Step(ONE_LIVE, Send(1, Publish("b")));
    assert w.registry.streamIdIndex == map[1 := A] && w.sessions[1] == Session(Publishing, "live", 1, "b");
    assert w.registry.streams - {B} == map[A := StreamInfo(1, 1, {})];
  }

  /** One session publishes twice under one id; once it closes, its first stream is live and not found by its id. */
  lemma RepublishHidesStream()
    ensures var r := Run(NOBODY, [Open(1), Send(1, Connect("live")), Send(1, CreateStream), Send(1, Publish("a")),
                                  Send(1, Publish("b")), Send(1, CloseStream)]).registry;
            r.streams == map[A := StreamInfo(1, 1, {})] && FoundById(r, 1) == None
  {
    hide Step, Run;
    PublishesFirst();
    PublishesAgainAndCloses();
    var e6: seq<Event> := [];
    var e5 := [Send(1, CloseStream)] + e6;
    var e4 := [Send(1, Publish("b"))] + e5;
    var e3 := [Send(1, Publish("a"))] + e4;
    var e2 := [Send(1, CreateStream)] + e3;
    var e1 := [Send(1, Connect("live"))] + e2;
    var w1 := Step(NOBODY, Open(1));
    var w2 := Step(w1, Send(1, Connect("live")));
    var w3 := Step(w2, Send(1, CreateStream));
    var w5 := Step(ONE_LIVE, Send(1, Publish("b")));
    RunOne(NOBODY, Open(1), e1);
    RunOne(w1, Send(1, Connect("live")), e2);
    RunOne(w2, Send(1, CreateStream), e3);
    RunOne(w3, Send(1, Publish("a")), e4);
    RunOne(ONE_LIVE, Send(1, Publish("b")), e5);
    RunOne(w5, Send(1, CloseStream), e6);
    RunNothing(Step(w5, Send(1, CloseStream)));
    assert [Open(1)] + e1 == [Open(1), Send(1, Connect("live")), Send(1, CreateStream), Send(1, Publish("a")),
                              Send(1, Publish("b")), Send(1, CloseStream)];
  }

  lemma RunNothing(w: World)
    ensures Run(w, []) == w
  {}
}
