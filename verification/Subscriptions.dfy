/** Who is subscribed to what, over runs of many sessions. */
module Subscriptions {
  import opened Streams
  import opened StreamRegistry
  import opened CommandHandler
  import opened CommandSessions
  import StreamLookup

  /** The subscribers of a stream; nobody if it is not live. */
  function Audience(w: World, key: StreamKey): set<ConnectionId> {
    if key in w.registry.streams then w.registry.streams[key].subscribers else {}
  }

  function Responses(w: World, c: ConnectionId, command: Command): seq<Response>
    requires c in w.sessions
  {
    Processed(command, c, w.sessions[c], w.registry).responses
  }

  /** What it takes to be let in: a stream id, the name of a live stream, and not to be subscribed to it yet. */
  predicate MayPlay(w: World, c: ConnectionId, name: string)
    requires c in w.sessions
  {
    var key := StreamKey(w.sessions[c].appName, name);
    w.sessions[c].streamId != 0 && name != "" && key in w.registry.streams && c !in Audience(w, key)
  }

  /** A play is answered with Start if and only if the session may play; then it, and no one else, joins that stream and no other. */
  lemma PlayStartsIff(w: World, c: ConnectionId, name: string)
    requires c in w.sessions
    ensures var s, t, responses := w.sessions[c], Step(w, Send(c, Play(name))), Responses(w, c, Play(name));
            var key := StreamKey(s.appName, name);
            && (MayPlay(w, c, name) <==> exists id :: OnStatus("status", "NetStream.Play.Start", id) in responses)
            && (MayPlay(w, c, name) ==>
                  && responses == [OnStatus("status", "NetStream.Play.Reset", s.streamId),
                                   OnStatus("status", "NetStream.Play.Start", s.streamId)]
                  && t.sessions == w.sessions[c := Session(Subscribing, s.appName, s.streamId, name)]
                  && t.registry.streams == w.registry.streams[key := StreamInfo(
                       w.registry.streams[key].streamId, w.registry.streams[key].publisherId, Audience(w, key) + {c})]
                  && t.registry.streamIdIndex == w.registry.streamIdIndex)
            && (!MayPlay(w, c, name) ==>
                  t == w && responses == [OnStatus("error", if s.streamId != 0 && name != "" && key !in w.registry.streams
                                                            then "NetStream.Play.StreamNotFound" else "NetStream.Play.Failed",
                                                   s.streamId)])
  {
    var s, responses := w.sessions[c], Responses(w, c, Play(name));
    if MayPlay(w, c, name) {
      assert responses[1] == OnStatus("status", "NetStream.Play.Start", s.streamId);
    } else {
      assert "error"[0] != "status"[0];
      assert w.sessions[c := s] == w.sessions;
    }
  }

  /** A repeated play is refused and changes nothing. */
  lemma RepeatedPlayRefused(w: World, c: ConnectionId, name: string)
    requires c in w.sessions && MayPlay(w, c, name)
    ensures var t := Step(w, Send(c, Play(name)));
            && Step(t, Send(c, Play(name))) == t
            && Responses(t, c, Play(name)) == [OnStatus("error", "NetStream.Play.Failed", w.sessions[c].streamId)]
  {
    hide Step, Processed;
    PlayStartsIff(w, c, name);
    PlayStartsIff(Step(w, Send(c, Play(name))), c, name);
  }

  // ----- what changes an audience

  /** A closeStream, or a deleteStream that names an id or has one to fall back on. */
  predicate GivesUp(w: World, e: Event) {
    e.Send? && e.c in w.sessions
    && (e.command.CloseStream? || (e.command.DeleteStream? && (e.command.target != 0 || w.sessions[e.c].streamId != 0)))
  }

  /** The session stands on the stream, as what it does and under the name it goes by. */
  predicate StandsOn(w: World, c: ConnectionId, state: SessionState, key: StreamKey) {
    c in w.sessions && w.sessions[c].state == state && w.sessions[c].streamKey != ""
    && w.sessions[c].appName == key.app && w.sessions[c].streamKey == key.name
  }

  /**
   The audience of a stream gains a session exactly by a play that starts, and loses one exactly when that session
   gives up while it plays the stream, or the stream is unregistered because its publisher gives up.
   */
  lemma AudienceChanges(w: World, e: Event, c: ConnectionId, key: StreamKey)
    ensures c in Audience(Step(w, e), key)
            <==> || (e.Send? && e.c == c && c in w.sessions && e.command == Play(key.name) && w.sessions[c].appName == key.app
                     && MayPlay(w, c, key.name))
                 || (c in Audience(w, key)
                     && !(GivesUp(w, e) && e.c == c && StandsOn(w, c, Subscribing, key))
                     && !(GivesUp(w, e) && StandsOn(w, e.c, Publishing, key)))
  {
    hide ValidAppName;
    if e.Send? && e.c in w.sessions {
      match e.command {
        case Play(name) =>
          if key == StreamKey(w.sessions[e.c].appName, name) { assert name == key.name; }
        case DeleteStream(_) => assert Key(w.sessions[e.c]) == key <==> w.sessions[e.c].appName == key.app && w.sessions[e.c].streamKey == key.name;
        case CloseStream => assert Key(w.sessions[e.c]) == key <==> w.sessions[e.c].appName == key.app && w.sessions[e.c].streamKey == key.name;
        case _ =>
      }
    }
  }

  /** A subscriber stays one for as long as neither it nor the stream's publisher sends closeStream or deleteStream. */
  lemma {:induction false} StaysSubscribed(w: World, events: seq<Event>, c: ConnectionId, key: StreamKey)
    requires Sound(w) && c in Audience(w, key)
    requires forall e :: e in events && e.Send? && (e.command.CloseStream? || e.command.DeleteStream?) ==>
               e.c != c && e.c != w.registry.streams[key].publisherId
    ensures var t := Run(w, events);
            c in Audience(t, key) && t.registry.streams[key].publisherId == w.registry.streams[key].publisherId
    decreases |events|
  {
    hide Sound, Step;
    if events != [] {
      var e := events[0];
      assert e in events;
      SilentStep(w, e, c, key);
      StepSound(w, e);
      assert forall f :: f in events[1..] ==> f in events;
      StaysSubscribed(Step(w, e), events[1..], c, key);
    }
  }

  lemma SilentStep(w: World, e: Event, c: ConnectionId, key: StreamKey)
    requires Sound(w) && c in Audience(w, key)
    requires e.Send? && (e.command.CloseStream? || e.command.DeleteStream?) ==>
               e.c != c && e.c != w.registry.streams[key].publisherId
    ensures var t := Step(w, e);
            c in Audience(t, key) && t.registry.streams[key].publisherId == w.registry.streams[key].publisherId
  {
    hide Processed;
    AudienceChanges(w, e, c, key);
    if StandsOn(w, e.c, Publishing, key) {
      assert Owns(w.registry, e.c, w.sessions[e.c]);
      assert Key(w.sessions[e.c]) == key;
    }
    PublisherKept(w, e, key);
  }

  /** No event changes who publishes a stream that is live before and after it. */
  lemma PublisherKept(w: World, e: Event, key: StreamKey)
    requires key in w.registry.streams && key in Step(w, e).registry.streams
    ensures Step(w, e).registry.streams[key].publisherId == w.registry.streams[key].publisherId
  {
    hide ValidAppName;
  }

  // ----- leaving

  /** The pool never offers the id 0. */
  predicate NoZeroPooled(w: World) {
    0 !in w.registry.releasedIds
  }

  lemma StepPoolsNoZero(w: World, e: Event)
    requires NoZeroPooled(w)
    ensures NoZeroPooled(Step(w, e))
    ensures e.Send? && e.c in w.sessions && e.command.CreateStream? && w.sessions[e.c].appName != ""
            ==> Step(w, e).sessions[e.c].streamId != 0
  {
    hide ValidAppName;
    if e.Send? && e.c in w.sessions && e.command.DeleteStream? {
      VacatedIds(e.c, w.sessions[e.c], w.registry);
      hide Vacated;
    }
  }

  /** The commands after which a session still plays what it played. */
  predicate PlaysOn(command: Command) {
    command.Connect? || command.CreateStream? || command.Acknowledged? || command.Other?
  }

  lemma PlaysOnStep(w: World, e: Event, c: ConnectionId, key: StreamKey)
    requires Sound(w) && NoZeroPooled(w) && StandsOn(w, c, Subscribing, key) && w.sessions[c].streamId != 0
    requires e.Send? && e.c == c ==> PlaysOn(e.command)
    ensures StandsOn(Step(w, e), c, Subscribing, key) && Step(w, e).sessions[c].streamId != 0
  {
    hide ValidAppName, Vacated;
    StepPoolsNoZero(w, e);
    hide NoZeroPooled;
    assert Progressed(w.sessions[c]);
    hide Sound;
  }

  lemma {:induction false} PlaysOnRun(w: World, events: seq<Event>, c: ConnectionId, key: StreamKey)
    requires Sound(w) && NoZeroPooled(w) && StandsOn(w, c, Subscribing, key) && w.sessions[c].streamId != 0
    requires forall e :: e in events && e.Send? && e.c == c ==> PlaysOn(e.command)
    ensures var t := Run(w, events);
            StandsOn(t, c, Subscribing, key) && t.sessions[c].streamId != 0 && Sound(t) && NoZeroPooled(t)
    decreases |events|
  {
    hide Sound, Step, StandsOn;
    if events != [] {
      var e := events[0];
      assert e in events;
      PlaysOnStep(w, e, c, key);
      StepSound(w, e);
      StepPoolsNoZero(w, e);
      assert forall f :: f in events[1..] ==> f in events;
      PlaysOnRun(Step(w, e), events[1..], c, key);
    }
  }

  /**
   Play, closeStream, play: whatever the others do in between, a session that closes what it plays is out of the
   audience, and may play the stream again as long as it is live. After a deleteStream it is out as well, and needs a new id.
   */
  lemma PlayClosePlay(w: World, c: ConnectionId, name: string, events: seq<Event>)
    requires Sound(w) && NoZeroPooled(w) && c in w.sessions && MayPlay(w, c, name)
    requires forall e :: e in events && e.Send? && e.c == c ==> PlaysOn(e.command)
    ensures var key := StreamKey(w.sessions[c].appName, name);
            var t := Run(Step(w, Send(c, Play(name))), events);
            var closed, deleted := Step(t, Send(c, CloseStream)), Step(t, Send(c, DeleteStream(0)));
            && c !in Audience(closed, key) && c !in Audience(deleted, key)
            && c in closed.sessions && (MayPlay(closed, c, name) <==> key in t.registry.streams)
            && c in deleted.sessions && !MayPlay(deleted, c, name)
  {
    hide Step, Run, Sound;
    var key := StreamKey(w.sessions[c].appName, name);
    var w1 := Step(w, Send(c, Play(name)));
    PlayStartsIff(w, c, name);
    StepSound(w, Send(c, Play(name)));
    StepPoolsNoZero(w, Send(c, Play(name)));
    PlaysOnRun(w1, events, c, key);
    var t := Run(w1, events);
    AudienceChanges(t, Send(c, CloseStream), c, key);
    AudienceChanges(t, Send(c, DeleteStream(0)), c, key);
    GivenUp(t, c);
  }

  lemma GivenUp(t: World, c: ConnectionId)
    requires c in t.sessions && t.sessions[c].state == Subscribing && t.sessions[c].streamId != 0
    ensures var closed, deleted := Step(t, Send(c, CloseStream)), Step(t, Send(c, DeleteStream(0)));
            && closed.sessions == t.sessions[c := Session(Connected, t.sessions[c].appName, t.sessions[c].streamId, "")]
            && deleted.sessions == t.sessions[c := Session(Connected, t.sessions[c].appName, 0, "")]
            && closed.registry.streams.Keys == deleted.registry.streams.Keys == t.registry.streams.Keys
  {}

  // ----- subscriptions left behind

  /** The session is subscribed to nothing but the stream it stands on. */
  ghost predicate Placed(w: World, c: ConnectionId) {
    forall key :: c in Audience(w, key) ==> StandsOn(w, c, Subscribing, key) || StandsOn(w, c, Publishing, key)
  }

  /** A closeStream takes a session out of every audience if and only if it was in none but that of the stream it stands on. */
  lemma CloseClearsIff(w: World, c: ConnectionId)
    requires c in w.sessions
    ensures (forall key :: c !in Audience(Step(w, Send(c, CloseStream)), key)) <==> Placed(w, c)
  {
    hide Step, Audience, StandsOn;
    var t := Step(w, Send(c, CloseStream));
    forall key
      ensures c in Audience(t, key)
              <==> c in Audience(w, key) && !StandsOn(w, c, Subscribing, key) && !StandsOn(w, c, Publishing, key)
    {
      AudienceChanges(w, Send(c, CloseStream), c, key);
    }
  }

  predicate MayPublish(w: World, c: ConnectionId, name: string)
    requires c in w.sessions
  {
    w.sessions[c].streamId != 0 && name != "" && StreamKey(w.sessions[c].appName, name) !in w.registry.streams
  }

  /** A play or publish that succeeds while the session is still subscribed to something. */
  ghost predicate MovesOn(w: World, e: Event, c: ConnectionId) {
    && e.Send? && e.c == c && c in w.sessions
    && ((e.command.Play? && MayPlay(w, c, e.command.name)) || (e.command.Publish? && MayPublish(w, c, e.command.name)))
    && exists key :: c in Audience(w, key)
  }

  /** What the session stands on after one event. */
  lemma StandsNext(w: World, e: Event, c: ConnectionId, key: StreamKey)
    requires Sound(w) && c in w.sessions
    ensures var t := Step(w, e);
            var own := e.Send? && e.c == c;
            && (own && e.command.Play? && MayPlay(w, c, e.command.name) ==>
                  (StandsOn(t, c, Subscribing, key) <==> key == StreamKey(w.sessions[c].appName, e.command.name))
                  && !StandsOn(t, c, Publishing, key))
            && (own && e.command.Publish? && MayPublish(w, c, e.command.name) ==>
                  (StandsOn(t, c, Publishing, key) <==> key == StreamKey(w.sessions[c].appName, e.command.name))
                  && !StandsOn(t, c, Subscribing, key))
            && (!(own && ((e.command.Play? && MayPlay(w, c, e.command.name))
                          || (e.command.Publish? && MayPublish(w, c, e.command.name)) || GivesUp(w, e))) ==>
                  (StandsOn(t, c, Subscribing, key) <==> StandsOn(w, c, Subscribing, key))
                  && (StandsOn(t, c, Publishing, key) <==> StandsOn(w, c, Publishing, key)))
  {
    hide ValidAppName, Vacated;
    assert Progressed(w.sessions[c]);
    hide Sound;
  }

  /** One event keeps a session to the stream it stands on if and only if it does not move it on. */
  lemma StepPlacedIff(w: World, e: Event, c: ConnectionId)
    requires Sound(w) && Placed(w, c)
    ensures Placed(Step(w, e), c) <==> !MovesOn(w, e, c)
  {
    hide Sound, Step, Audience, StandsOn, GivesUp;
    var t := Step(w, e);
    forall key ensures c in Audience(w, key) ==> c in w.sessions {
      StandsInWorld(w, c, key);
    }
    if MovesOn(w, e, c) {
      var key :| c in Audience(w, key);
      AudienceChanges(w, e, c, key);
      StandsNext(w, e, c, key);
      MovedAudience(w, e, c, key);
    } else {
      forall key | c in Audience(t, key) ensures StandsOn(t, c, Subscribing, key) || StandsOn(t, c, Publishing, key) {
        AudienceChanges(w, e, c, key);
        if c in w.sessions {
          StandsNext(w, e, c, key);
          assert StreamKey(key.app, key.name) == key;
        }
      }
    }
  }

  lemma StandsInWorld(w: World, c: ConnectionId, key: StreamKey)
    ensures StandsOn(w, c, Subscribing, key) || StandsOn(w, c, Publishing, key) ==> c in w.sessions
  {}

  /** The stream moved to is another than any the session is subscribed to. */
  lemma MovedAudience(w: World, e: Event, c: ConnectionId, key: StreamKey)
    requires MovesOn(w, e, c) && c in Audience(w, key)
    ensures key != StreamKey(w.sessions[c].appName, e.command.name) && !GivesUp(w, e)
  {}

  ghost predicate PlacedThroughout(w: World, events: seq<Event>, c: ConnectionId)
    decreases |events|
  {
    Placed(w, c) && (events != [] ==> PlacedThroughout(Step(w, events[0]), events[1..], c))
  }

  ghost predicate NeverMovesOn(w: World, events: seq<Event>, c: ConnectionId)
    decreases |events|
  {
    events != [] ==> !MovesOn(w, events[0], c) && NeverMovesOn(Step(w, events[0]), events[1..], c)
  }

  lemma {:induction false} PlacedThroughoutFrom(w: World, events: seq<Event>, c: ConnectionId)
    requires Sound(w) && Placed(w, c)
    ensures PlacedThroughout(w, events, c) <==> NeverMovesOn(w, events, c)
    decreases |events|
  {
    hide Sound, Placed, Step, MovesOn;
    if events != [] {
      StepPlacedIff(w, events[0], c);
      StepSound(w, events[0]);
      if !MovesOn(w, events[0], c) {
        PlacedThroughoutFrom(Step(w, events[0]), events[1..], c);
      }
    }
  }

  /**
   Over any run: at all times a closeStream would take the session out of every audience, if and only if it never
   plays or publishes with success while it is still subscribed to something.
   */
  lemma PlacedThroughoutIff(events: seq<Event>, c: ConnectionId)
    ensures PlacedThroughout(NOBODY, events, c) <==> NeverMovesOn(NOBODY, events, c)
  {
    hide PlacedThroughout, NeverMovesOn;
    StreamLookup.NobodySound();
    PlacedThroughoutFrom(NOBODY, events, c);
  }

  const A: StreamKey := StreamLookup.A
  const B: StreamKey := StreamLookup.B

  /** Session 1 publishes "a" and "b", session 2 has a stream id. */
  const TWO_LIVE: World := World(map[1 := Session(Publishing, "live", 1, "b"), 2 := Session(Connected, "live", 2, "")],
                                 State(map[A := StreamInfo(1, 1, {}), B := StreamInfo(1, 1, {})], map[1 := A], 3, []))

  lemma BothLive()
    ensures Step(Step(Step(Step(StreamLookup.ONE_LIVE, Send(1, Publish("b"))), Open(2)), Send(2, Connect("live"))), Send(2, CreateStream))
         == TWO_LIVE
  {
    assert ValidAppName("live");
    assert A.name[0] != B.name[0];
    var w1 := Step(StreamLookup.ONE_LIVE, Send(1, Publish("b")));
    assert w1.registry == State(map[A := StreamInfo(1, 1, {}), B := StreamInfo(1, 1, {})], map[1 := A], 2, []);
    var w2 := Step(w1, Open(2));
    assert w2.sessions == map[1 := Session(Publishing, "live", 1, "b"), 2 := FRESH];
    var w3 := Step(w2, Send(2, Connect("live")));
    assert w3.sessions == map[1 := Session(Publishing, "live", 1, "b"), 2 := Session(Connected, "live", 0, "")];
    var w4 := Step(w3, Send(2, CreateStream));
    assert w4.sessions == TWO_LIVE.sessions && w4.registry == TWO_LIVE.registry;
  }

  lemma PlaysTwiceAndCloses()
    ensures var t := Step(Step(Step(TWO_LIVE, Send(2, Play("a"))), Send(2, Play("b"))), Send(2, CloseStream));
            Audience(t, A) == {2} && 2 in t.sessions && t.sessions[2] == Session(Connected, "live", 2, "")
  {
    assert A.name[0] != B.name[0];
    hide Step, Processed;
    PlayStartsIff(TWO_LIVE, 2, "a");
    var w1 := Step(TWO_LIVE, Send(2, Play("a")));
    PlayStartsIff(w1, 2, "b");
    var w2 := Step(w1, Send(2, Play("b")));
    forall c ensures c in Audience(Step(w2, Send(2, CloseStream)), A) <==> c == 2 {
      AudienceChanges(w2, Send(2, CloseStream), c, A);
    }
    GivenUp(w2, 2);
  }

  /** A session plays "a", then "b", then closes: it is a subscriber of "a" for as long as that stream is live. */
  lemma SubscriptionLeftBehind()
    ensures var w := Run(NOBODY, [Open(1), Send(1, Connect("live")), Send(1, CreateStream), Send(1, Publish("a")), Send(1, Publish("b")),
                                  Open(2), Send(2, Connect("live")), Send(2, CreateStream), Send(2, Play("a")), Send(2, Play("b")),
                                  Send(2, CloseStream)]);
            Audience(w, StreamKey("live", "a")) == {2} && 2 in w.sessions && w.sessions[2] == Session(Connected, "live", 2, "")
  {
    hide Step, Run;
    StreamLookup.PublishesFirst();
    BothLive();
    PlaysTwiceAndCloses();
    var e := [Open(1), Send(1, Connect("live")), Send(1, CreateStream), Send(1, Publish("a")), Send(1, Publish("b")),
              Open(2), Send(2, Connect("live")), Send(2, CreateStream), Send(2, Play("a")), Send(2, Play("b")),
              Send(2, CloseStream)];
    var w4 := RunFour(NOBODY, e);
    var w8 := RunFour(w4, e[4..]);
    assert e[4..][4..] == e[8..] && e[8..][1..] == e[9..] && e[9..][1..] == e[10..] && e[10..][1..] == [];
    RunNext(w8, e[8..]);
    RunNext(Step(w8, e[8]), e[9..]);
    RunNext(Step(Step(w8, e[8]), e[9]), e[10..]);
    StreamLookup.RunNothing(Step(Step(Step(w8, e[8]), e[9]), e[10]));
  }

  lemma RunNext(w: World, events: seq<Event>)
    requires events != []
    ensures Run(w, events) == Run(Step(w, events[0]), events[1..])
  {
    hide Step;
  }

  lemma RunFour(w: World, events: seq<Event>) returns (t: World)
    requires |events| >= 4
    ensures t == Step(Step(Step(Step(w, events[0]), events[1]), events[2]), events[3]) && Run(w, events) == Run(t, events[4..])
  {
    hide Step, Run;
    var w1 := Step(w, events[0]);
    var w2 := Step(w1, events[1]);
    var w3 := Step(w2, events[2]);
    t := Step(w3, events[3]);
    RunNext(w, events);
    RunNext(w1, events[1..]);
    RunNext(w2, events[1..][1..]);
    RunNext(w3, events[1..][1..][1..]);
    assert events[1..][1..][1..][1..] == events[4..];
  }
}
