/** Any number of sessions sending commands to one registry, in any order. */
module CommandSessions {
  import opened Bytes
  import opened Streams
  import opened StreamRegistry
  import opened CommandHandler

  datatype World = World(sessions: map<ConnectionId, Session>, registry: State)

  datatype Event = Open(c: ConnectionId) | Send(c: ConnectionId, command: Command)

  const NOBODY: World := World(map[], EMPTY)

  function Step(w: World, e: Event): World {
    match e
    case Open(c) => if c in w.sessions then w else w.(sessions := w.sessions[c := FRESH])
    case Send(c, command) =>
      if c !in w.sessions then w
      else
        var turn := Processed(command, c, w.sessions[c], w.registry);
        World(w.sessions[c := turn.session], turn.registry)
  }

  function Run(w: World, events: seq<Event>): World
    decreases |events|
  {
    if events == [] then w else Run(Step(w, events[0]), events[1..])
  }

  // ----- who publishes what

  /** The key a publishing session claims is registered, and registered to it. */
  predicate Owns(r: State, c: ConnectionId, s: Session) {
    s.state == Publishing ==> s.streamKey != "" && Key(s) in r.streams && r.streams[Key(s)].publisherId == c
  }

  /** Without an application there is no stream; with one the session is at least connected. */
  predicate Progressed(s: Session) {
    && (s.streamId != 0 || s.state == Publishing || s.state == Subscribing ==> s.appName != "")
    && (s.appName != "" ==> AtLeastConnected(s.state))
  }

  ghost predicate Sound(w: World) {
    && Indexed(w.registry)
    && forall c :: c in w.sessions ==> Owns(w.registry, c, w.sessions[c]) && Progressed(w.sessions[c])
  }

  /** One command of `c` keeps what concerns `c`. */
  lemma OwnTurn(command: Command, c: ConnectionId, s: Session, r: State)
    requires Owns(r, c, s) && Progressed(s) && Indexed(r)
    ensures var turn := Processed(command, c, s, r);
            Owns(turn.registry, c, turn.session) && Progressed(turn.session) && Indexed(turn.registry)
  {
    hide ValidAppName;
    match command {
      case Connect(app) => NameNotEmpty(app);
      case Publish(name) => RegisteredIndexed(r, StreamKey(s.appName, name), s.streamId, c);
      case DeleteStream(_) => UnregisteredIndexed(r, Key(s));
      case CloseStream => UnregisteredIndexed(r, Key(s));
      case CreateStream =>
      case Play(_) =>
      case Acknowledged =>
      case Other =>
    }
  }

  lemma NameNotEmpty(app: string)
    ensures ValidAppName(app) ==> app != ""
  {}

  /** One command of `c` leaves alone every stream published by another, but for its subscribers. */
  lemma OthersTurn(command: Command, c: ConnectionId, s: Session, r: State, key: StreamKey)
    requires Owns(r, c, s) && key in r.streams && r.streams[key].publisherId != c
    ensures var t := Processed(command, c, s, r).registry;
            key in t.streams && t.streams[key].publisherId == r.streams[key].publisherId
            && t.streams[key].streamId == r.streams[key].streamId
  {
    hide ValidAppName;
  }

  lemma StepSound(w: World, e: Event)
    requires Sound(w)
    ensures Sound(Step(w, e))
  {
    hide Processed, Indexed;
    match e
    case Open(c) =>
    case Send(c, command) =>
      if c in w.sessions {
        OwnTurn(command, c, w.sessions[c], w.registry);
        var t := Step(w, e);
        forall d | d in t.sessions ensures Owns(t.registry, d, t.sessions[d]) && Progressed(t.sessions[d]) {
          if d != c && w.sessions[d].state == Publishing {
            OthersTurn(command, c, w.sessions[c], w.registry, Key(w.sessions[d]));
          }
        }
      }
  }

  lemma {:induction false} RunSound(w: World, events: seq<Event>)
    requires Sound(w)
    ensures Sound(Run(w, events))
    decreases |events|
  {
    hide Sound, Step;
    if events != [] {
      StepSound(w, events[0]);
      RunSound(Step(w, events[0]), events[1..]);
    }
  }

  /**
   Whatever the sessions send, in whatever order: a publishing session's key is registered to that session, no two
   sessions publish the same key, and every entry of the stream-id index names a live stream with that id.
   */
  lemma PublisherExclusion(events: seq<Event>)
    ensures var w := Run(NOBODY, events);
            && Indexed(w.registry)
            && (forall c :: c in w.sessions && w.sessions[c].state == Publishing ==>
                  Key(w.sessions[c]) in w.registry.streams && w.registry.streams[Key(w.sessions[c])].publisherId == c)
            && (forall c, d :: (c in w.sessions && d in w.sessions && c != d
                                && w.sessions[c].state == Publishing && w.sessions[d].state == Publishing) ==>
                  Key(w.sessions[c]) != Key(w.sessions[d]))
  {
    hide Run, Indexed;
    assert Sound(NOBODY) by { NobodyIndexed(); }
    RunSound(NOBODY, events);
  }

  lemma NobodyIndexed()
    ensures Indexed(NOBODY.registry)
  {}

  /** Nobody else's commands end a publication: the stream keeps its publisher and id while its session is silent. */
  lemma {:induction false} PublicationLasts(w: World, events: seq<Event>, c: ConnectionId)
    requires Sound(w) && c in w.sessions && w.sessions[c].state == Publishing
    requires forall e :: e in events ==> e.c != c
    ensures var t := Run(w, events); var key := Key(w.sessions[c]);
            && c in t.sessions && t.sessions[c] == w.sessions[c]
            && key in t.registry.streams && t.registry.streams[key].publisherId == c
            && t.registry.streams[key].streamId == w.registry.streams[key].streamId
    decreases |events|
  {
    hide Processed, Indexed;
    if events != [] {
      var e := events[0];
      assert e in events;
      if e.Send? && e.c in w.sessions {
        OthersTurn(e.command, e.c, w.sessions[e.c], w.registry, Key(w.sessions[c]));
      }
      StepSound(w, e);
      PublicationLasts(Step(w, e), events[1..], c);
    }
  }

  /** Publishing a key that another session publishes is refused and changes nothing. */
  lemma PublishRefused(events: seq<Event>, c: ConnectionId, d: ConnectionId, name: string)
    requires var w := Run(NOBODY, events);
             c in w.sessions && d in w.sessions && w.sessions[c].state == Publishing
             && Key(w.sessions[c]) == StreamKey(w.sessions[d].appName, name)
    ensures var w := Run(NOBODY, events);
            && Step(w, Send(d, Publish(name))) == w
            && var responses := Processed(Publish(name), d, w.sessions[d], w.registry).responses;
            |responses| == 1 && responses[0].OnStatus? && responses[0].level == "error"
  {
    hide Run;
    PublisherExclusion(events);
    var w := Run(NOBODY, events);
    assert w.sessions[d := w.sessions[d]] == w.sessions;
  }

  // ----- what each command takes

  /** The names an application may have, in ASCII codes: letters, digits, and the characters - / _ only. */
  lemma AppNames(app: string)
    ensures ValidAppName(app)
            <==> app != "" && forall i :: 0 <= i < |app| ==>
                   var code := app[i] as int; code == 45 || 47 <= code <= 57 || 65 <= code <= 90 || code == 95 || 97 <= code <= 122
  {
    forall i | 0 <= i < |app|
      ensures AppNameChar(app[i])
              <==> var code := app[i] as int; code == 45 || 47 <= code <= 57 || 65 <= code <= 90 || code == 95 || 97 <= code <= 122
    {}
    assert forall i :: 0 <= i < |app| ==> app[i] in app;
  }

  /** A session connects once, to a well-formed application name; every other connect changes nothing. */
  lemma ConnectsIff(w: World, c: ConnectionId, app: string)
    requires Sound(w) && c in w.sessions
    ensures var s, t := w.sessions[c], Step(w, Send(c, Connect(app)));
            var responses := Processed(Connect(app), c, s, w.registry).responses;
            && (responses == [Result] <==> s.appName == "" && ValidAppName(app))
            && (responses == [Result] ==>
                  t == w.(sessions := w.sessions[c := Session(Connected, app, s.streamId, s.streamKey)]))
            && (responses != [Result] ==>
                  t == w && responses == [Error(if s.appName != "" then "NetConnection.Connect.Rejected"
                                                else "NetConnection.Connect.InvalidApp")])
  {
    hide ValidAppName;
    assert Progressed(w.sessions[c]);
    assert w.sessions[c := w.sessions[c]] == w.sessions;
  }

  /** Once connected, a session keeps its application for good. */
  lemma {:induction false} KeepsApplication(w: World, events: seq<Event>, c: ConnectionId)
    requires Sound(w) && c in w.sessions && w.sessions[c].appName != ""
    ensures var t := Run(w, events); c in t.sessions && t.sessions[c].appName == w.sessions[c].appName
    decreases |events|
  {
    hide Sound, Step;
    if events != [] {
      StepKeepsApplication(w, events[0], c);
      StepSound(w, events[0]);
      KeepsApplication(Step(w, events[0]), events[1..], c);
    }
  }

  lemma StepKeepsApplication(w: World, e: Event, c: ConnectionId)
    requires Sound(w) && c in w.sessions && w.sessions[c].appName != ""
    ensures var t := Step(w, e); c in t.sessions && t.sessions[c].appName == w.sessions[c].appName
  {
    hide ValidAppName, Vacated, Allocated, AllocatedId, Registered;
    assert Progressed(w.sessions[c]);
    hide Sound;
  }

  /**
   A publish starts if and only if the session has a stream id, there is a name and nobody publishes under it; then the
   stream is live with that id, that publisher and no subscribers. Every other publish changes nothing.
   */
  lemma PublishesIff(w: World, c: ConnectionId, name: string)
    requires c in w.sessions
    ensures var s, t := w.sessions[c], Step(w, Send(c, Publish(name)));
            var responses := Processed(Publish(name), c, s, w.registry).responses;
            var key := StreamKey(s.appName, name);
            if s.streamId != 0 && name != "" && key !in w.registry.streams then
              && responses == [OnStatus("status", "NetStream.Publish.Start", s.streamId)]
              && t.sessions == w.sessions[c := Session(Publishing, s.appName, s.streamId, name)]
              && t.registry.streams == w.registry.streams[key := StreamInfo(s.streamId, c, {})]
            else
              && t == w
              && responses == [OnStatus("error", if s.streamId == 0 then "NetStream.Publish.Failed" else "NetStream.Publish.BadName",
                                        s.streamId)]
  {
    assert w.sessions[c := w.sessions[c]] == w.sessions;
  }

  // ----- stream ids

  /** Ids in use and ids given back are all different, and below the counter. */
  ghost predicate IdsApart(w: World) {
    var r := w.registry;
    && (forall c :: c in w.sessions && w.sessions[c].streamId != 0 ==>
          w.sessions[c].streamId < r.nextStreamId && w.sessions[c].streamId !in r.releasedIds)
    && (forall c, d :: c in w.sessions && d in w.sessions && c != d && w.sessions[c].streamId != 0 ==>
          w.sessions[c].streamId != w.sessions[d].streamId)
    && (forall i :: 0 <= i < |r.releasedIds| ==> 0 < r.releasedIds[i] < r.nextStreamId)
    && (forall i, j :: 0 <= i < j < |r.releasedIds| ==> r.releasedIds[i] != r.releasedIds[j])
  }

  /** What a client may name in deleteStream without harm: nothing, its own stream, or an id nobody holds or awaits. */
  ghost predicate MayDelete(w: World, c: ConnectionId, target: StreamId)
    requires c in w.sessions
  {
    || target == 0 || target == w.sessions[c].streamId
    || (target < w.registry.nextStreamId && target !in w.registry.releasedIds
        && forall d :: d in w.sessions && d != c ==> w.sessions[d].streamId != target)
  }

  /** The registry takes the client's word for the number: ids stay apart exactly if the client names a harmless one. */
  lemma DeleteKeepsApart(w: World, c: ConnectionId, target: StreamId)
    requires IdsApart(w) && c in w.sessions
    ensures IdsApart(Step(w, Send(c, DeleteStream(target)))) <==> MayDelete(w, c, target)
  {
    var t := Step(w, Send(c, DeleteStream(target)));
    var s := w.sessions[c];
    VacatedIds(c, s, w.registry);
    hide Vacated;
    var id := if target == 0 then s.streamId else target;
    if id != 0 {
      var before, after := w.registry.releasedIds, t.registry.releasedIds;
      assert after == before + [id];
      assert after[|before|] == id;
      if MayDelete(w, c, target) {
        assert id !in before;
        forall i, j | 0 <= i < j < |after| ensures after[i] != after[j] {
          if j == |before| { assert after[i] == before[i]; }
        }
      } else {
        assert id == target;
        if id in before {
          var i :| 0 <= i < |before| && before[i] == id;
          assert after[i] == after[|before|];
        } else if d :| d in w.sessions && d != c && w.sessions[d].streamId == id {
          assert t.sessions[d].streamId == id && id in after;
        }
      }
    } else {
      assert w.sessions[c := s] == w.sessions;
    }
  }

  lemma VacatedIds(c: ConnectionId, s: Session, r: State)
    ensures Vacated(c, s, r).releasedIds == r.releasedIds && Vacated(c, s, r).nextStreamId == r.nextStreamId
  {}

  lemma CreateKeepsApart(w: World, c: ConnectionId)
    requires IdsApart(w) && c in w.sessions && 0 < w.registry.nextStreamId
    requires w.registry.releasedIds == [] ==> w.registry.nextStreamId + 1 < TWO_TO_THE_32
    ensures IdsApart(Step(w, Send(c, CreateStream)))
    ensures w.registry.nextStreamId <= Step(w, Send(c, CreateStream)).registry.nextStreamId <= w.registry.nextStreamId + 1
  {
    hide IdsApart;
    var t := Step(w, Send(c, CreateStream));
    var r := w.registry;
    if w.sessions[c].appName == "" {
      assert t.sessions == w.sessions;
    } else {
      AllocatedApart(w, c, w.sessions[c].(streamId := AllocatedId(r)));
    }
  }

  lemma AllocatedApart(w: World, c: ConnectionId, s: Session)
    requires IdsApart(w) && 0 < w.registry.nextStreamId && s.streamId == AllocatedId(w.registry)
    requires w.registry.releasedIds == [] ==> w.registry.nextStreamId + 1 < TWO_TO_THE_32
    ensures IdsApart(World(w.sessions[c := s], Allocated(w.registry)))
  {
    var r, t := w.registry, Allocated(w.registry);
    var id := AllocatedId(r);
    assert id != 0 && id < t.nextStreamId && id !in t.releasedIds && r.nextStreamId <= t.nextStreamId;
    assert forall d :: d in w.sessions && w.sessions[d].streamId != 0 ==> w.sessions[d].streamId != id by {
      if r.releasedIds != [] { assert id in r.releasedIds; }
    }
    assert forall x :: x in t.releasedIds ==> x in r.releasedIds;
    hide AllocatedId, Allocated;
  }

  /** The commands other than createStream and deleteStream touch no ids. */
  lemma OtherKeepsApart(w: World, c: ConnectionId, command: Command)
    requires IdsApart(w) && c in w.sessions && !command.CreateStream? && !command.DeleteStream?
    ensures var t := Step(w, Send(c, command));
            && IdsApart(t) && t.registry.nextStreamId == w.registry.nextStreamId
  {
    hide ValidAppName;
    var t := Step(w, Send(c, command));
    VacatedIds(c, w.sessions[c], w.registry);
    hide Vacated;
    assert t.registry.releasedIds == w.registry.releasedIds && t.registry.nextStreamId == w.registry.nextStreamId;
    assert t.sessions[c].streamId == w.sessions[c].streamId;
    hide Processed;
  }

  /** How often the run may ask for a new id. */
  function Creates(events: seq<Event>): nat {
    if events == [] then 0
    else (if events[0].Send? && events[0].command.CreateStream? then 1 else 0) + Creates(events[1..])
  }

  /** Every deleteStream of the run names a harmless id at its time. */
  ghost predicate MayDeleteAll(w: World, events: seq<Event>)
    decreases |events|
  {
    events != [] ==>
      && (events[0].Send? && events[0].command.DeleteStream? && events[0].c in w.sessions ==>
            MayDelete(w, events[0].c, events[0].command.target))
      && MayDeleteAll(Step(w, events[0]), events[1..])
  }

  lemma StepKeepsApart(w: World, e: Event)
    requires IdsApart(w) && 0 < w.registry.nextStreamId && w.registry.nextStreamId + Creates([e]) < TWO_TO_THE_32
    requires MayDeleteAll(w, [e])
    ensures var t := Step(w, e);
            IdsApart(t) && w.registry.nextStreamId <= t.registry.nextStreamId <= w.registry.nextStreamId + Creates([e])
  {
    hide IdsApart, MayDelete, Processed;
    match e
    case Open(c) =>
      OpenKeepsApart(w, c);
    case Send(c, command) =>
      if c in w.sessions {
        if command.CreateStream? {
          assert Creates([e]) == 1;
          CreateKeepsApart(w, c);
        } else if command.DeleteStream? {
          DeleteKeepsApart(w, c, command.target);
          DeleteKeepsCounter(w, c, command.target);
        } else {
          OtherKeepsApart(w, c, command);
        }
      }
  }

  lemma DeleteKeepsCounter(w: World, c: ConnectionId, target: StreamId)
    requires c in w.sessions
    ensures Step(w, Send(c, DeleteStream(target))).registry.nextStreamId == w.registry.nextStreamId
  {}

  lemma OpenKeepsApart(w: World, c: ConnectionId)
    requires IdsApart(w)
    ensures IdsApart(Step(w, Open(c)))
  {}

  lemma {:induction false} IdsStayApartFrom(w: World, events: seq<Event>)
    requires IdsApart(w) && 0 < w.registry.nextStreamId && w.registry.nextStreamId + Creates(events) < TWO_TO_THE_32
    requires MayDeleteAll(w, events)
    ensures IdsApart(Run(w, events))
    decreases |events|
  {
    hide IdsApart, Step, MayDelete;
    if events != [] {
      var e := events[0];
      assert [e][1..] == [] && Creates([e]) + Creates(events[1..]) == Creates(events);
      StepKeepsApart(w, e);
      IdsStayApartFrom(Step(w, e), events[1..]);
    }
  }

  /**
   Two sessions never hold the same stream id, nor is a held id in the pool, as long as clients delete harmless
   ids only and the 32-bit counter has not come round.
   */
  lemma IdsStayApart(events: seq<Event>)
    requires Creates(events) < TWO_TO_THE_32 - 1 && MayDeleteAll(NOBODY, events)
    ensures IdsApart(Run(NOBODY, events))
  {
    hide Run, Creates, MayDeleteAll;
    IdsStayApartFrom(NOBODY, events);
  }

  /** One deleteStream of another's number, and two sessions hold the same id. */
  lemma SharedStreamId()
    ensures var w := Run(NOBODY, [Open(1), Open(2), Send(1, Connect("live")), Send(2, Connect("live")),
                                  Send(1, CreateStream), Send(2, DeleteStream(1)), Send(2, CreateStream)]);
            w.sessions[1].streamId == w.sessions[2].streamId == 1
  {
    assert ValidAppName("live");
    var w0 := Step(Step(NOBODY, Open(1)), Open(2));
    var live := FRESH.(appName := "live", state := Connected);
    var w1 := Step(Step(w0, Send(1, Connect("live"))), Send(2, Connect("live")));
    assert w1 == World(map[1 := live, 2 := live], EMPTY);
    var w2 := Step(w1, Send(1, CreateStream));
    assert w2.registry == EMPTY.(nextStreamId := 2) && w2.sessions[1].streamId == 1;
    var w3 := Step(w2, Send(2, DeleteStream(1)));
    assert w3.registry.releasedIds == [1];
    var w4 := Step(w3, Send(2, CreateStream));
    assert w4.sessions[1].streamId == 1 && w4.sessions[2].streamId == 1;
    var e5 := [Send(1, CreateStream), Send(2, DeleteStream(1)), Send(2, CreateStream)];
    var e3 := [Send(1, Connect("live")), Send(2, Connect("live"))] + e5;
    var e1 := [Open(1), Open(2)] + e3;
    assert e1[1..][1..] == e3 && e3[1..][1..] == e5 && e5[1..][1..] == [Send(2, CreateStream)] && e5[1..][1..][1..] == [];
    assert Run(w2, e5[1..]) == Run(w3, e5[1..][1..]) == Run(w4, []);
    assert Run(w1, e5) == w4;
    assert Run(w0, e3) == Run(Step(w0, e3[0]), e3[1..]) == Run(w1, e5);
    assert Run(NOBODY, e1) == Run(Step(NOBODY, e1[0]), e1[1..]) == Run(w0, e3);
  }
}
