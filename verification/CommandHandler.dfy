/** The commands a client sends on its session, and what they do to the session and the stream registry. */
module CommandHandler {
  import opened Bytes
  import opened Streams
  import opened StreamRegistry

  datatype SessionState = Initial | Handshaking | Connected | Publishing | Subscribing | Closed

  /** The states are ordered; these are the ones from Connected on. */
  predicate AtLeastConnected(s: SessionState) {
    !s.Initial? && !s.Handshaking?
  }

  datatype Session = Session(state: SessionState, appName: string, streamId: StreamId, streamKey: string)

  const FRESH: Session := Session(Initial, "", 0, "")

  /** Commands with the arguments the handlers extract: "" and 0 when an argument is missing or of another type. */
  datatype Command =
    | Connect(app: string)
    | CreateStream
    | Publish(name: string)
    | Play(name: string)
    | DeleteStream(target: StreamId)
    | CloseStream
    | Acknowledged
    | Other

  datatype Response =
    | Result
    | StreamCreated(id: StreamId)
    | Error(code: string)
    | OnStatus(level: string, code: string, id: StreamId)

  datatype Turn = Turn(session: Session, registry: State, responses: seq<Response>)

  predicate AppNameChar(c: char) {
    'a' <= c <= 'z' || 'A' <= c <= 'Z' || '0' <= c <= '9' || c == '_' || c == '-' || c == '/'
  }

  predicate ValidAppName(app: string) {
    app != "" && forall c :: c in app ==> AppNameChar(c)
  }

  function Key(s: Session): StreamKey {
    StreamKey(s.appName, s.streamKey)
  }

  function Connecting(app: string, s: Session, r: State): Turn {
    if s.appName != "" && AtLeastConnected(s.state) then Turn(s, r, [Error("NetConnection.Connect.Rejected")])
    else if !ValidAppName(app) then Turn(s, r, [Error("NetConnection.Connect.InvalidApp")])
    else Turn(s.(appName := app, state := Connected), r, [Result])
  }

  function CreatingStream(s: Session, r: State): Turn {
    if s.appName == "" then Turn(s, r, [Error("NetStream.Failed")])
    else Turn(s.(streamId := AllocatedId(r)), Allocated(r), [StreamCreated(AllocatedId(r))])
  }

  function PublishingStream(name: string, c: ConnectionId, s: Session, r: State): Turn {
    if s.streamId == 0 then Turn(s, r, [OnStatus("error", "NetStream.Publish.Failed", 0)])
    else if name == "" || StreamKey(s.appName, name) in r.streams then
      Turn(s, r, [OnStatus("error", "NetStream.Publish.BadName", s.streamId)])
    else
      Turn(s.(state := Publishing, streamKey := name),
           Registered(r, StreamKey(s.appName, name), s.streamId, c),
           [OnStatus("status", "NetStream.Publish.Start", s.streamId)])
  }

  function PlayingStream(name: string, c: ConnectionId, s: Session, r: State): Turn {
    var key := StreamKey(s.appName, name);
    if s.streamId == 0 || name == "" then Turn(s, r, [OnStatus("error", "NetStream.Play.Failed", s.streamId)])
    else if key !in r.streams then Turn(s, r, [OnStatus("error", "NetStream.Play.StreamNotFound", s.streamId)])
    else if c in r.streams[key].subscribers then Turn(s, r, [OnStatus("error", "NetStream.Play.Failed", s.streamId)])
    else
      Turn(s.(state := Subscribing, streamKey := name), Joined(r, key, c),
           [OnStatus("status", "NetStream.Play.Reset", s.streamId), OnStatus("status", "NetStream.Play.Start", s.streamId)])
  }

  /** The registry without what the session is publishing or playing. */
  function Vacated(c: ConnectionId, s: Session, r: State): State {
    if s.streamKey == "" then r
    else if s.state == Publishing then Unregistered(r, Key(s))
    else if s.state == Subscribing then Left(r, Key(s), c)
    else r
  }

  /** The target is whatever number the client names, or the session's own id. */
  function DeletingStream(target: StreamId, c: ConnectionId, s: Session, r: State): Turn {
    var id := if target == 0 then s.streamId else target;
    if id == 0 then Turn(s, r, [])
    else Turn(s.(state := Connected, streamId := 0, streamKey := ""), Released(Vacated(c, s, r), id), [])
  }

  function ClosingStream(c: ConnectionId, s: Session, r: State): Turn {
    Turn(s.(state := Connected, streamKey := ""), Vacated(c, s, r), [])
  }

  function Processed(command: Command, c: ConnectionId, s: Session, r: State): Turn {
    match command
    case Connect(app) => Connecting(app, s, r)
    case CreateStream => CreatingStream(s, r)
    case Publish(name) => PublishingStream(name, c, s, r)
    case Play(name) => PlayingStream(name, c, s, r)
    case DeleteStream(target) => DeletingStream(target, c, s, r)
    case CloseStream => ClosingStream(c, s, r)
    case Acknowledged => Turn(s, r, [Result])
    case Other => Turn(s, r, [])
  }

  class SessionContext {
    const connectionId: ConnectionId
    var state: SessionState
    var appName: string
    var streamId: StreamId
    var streamKey: string

    ghost function V(): Session
      reads this
    {
      Session(state, appName, streamId, streamKey)
    }

    constructor (connectionId: ConnectionId)
      ensures V() == FRESH && this.connectionId == connectionId
    {
      this.connectionId := connectionId;
      state, appName, streamId, streamKey := Initial, "", 0, "";
    }
  }

  class Handler {
    const streamRegistry: Registry

    constructor (registry: Registry)
      ensures streamRegistry == registry
    {
      streamRegistry := registry;
    }

    method ProcessCommand(command: Command, session: SessionContext) returns (responses: seq<Response>)
      modifies session, streamRegistry
      ensures Turn(session.V(), streamRegistry.S(), responses)
           == Processed(command, session.connectionId, old(session.V()), old(streamRegistry.S()))
    {
      match command {
        case Connect(app) => responses := HandleConnect(app, session);
        case CreateStream => responses := HandleCreateStream(session);
        case Publish(name) => responses := HandlePublish(name, session);
        case Play(name) => responses := HandlePlay(name, session);
        case DeleteStream(target) => responses := HandleDeleteStream(target, session);
        case CloseStream => responses := HandleCloseStream(session);
        case Acknowledged => responses := [Result];
        case Other => responses := [];
      }
    }

    method HandleConnect(app: string, session: SessionContext) returns (responses: seq<Response>)
      modifies session
      ensures Turn(session.V(), streamRegistry.S(), responses)
           == Connecting(app, old(session.V()), old(streamRegistry.S()))
    {
      if session.appName != "" && AtLeastConnected(session.state) {
        return [Error("NetConnection.Connect.Rejected")];
      }
      var valid := ValidateAppName(app);
      if !valid {
        return [Error("NetConnection.Connect.InvalidApp")];
      }
      session.appName := app;
      session.state := Connected;
      return [Result];
    }

    method ValidateAppName(app: string) returns (valid: bool)
      ensures valid <==> ValidAppName(app)
    {
      if app == "" {
        return false;
      }
      var i: nat := 0;
      while i < |app|
        invariant i <= |app| && forall j :: 0 <= j < i ==> AppNameChar(app[j])
      {
        if !AppNameChar(app[i]) {
          return false;
        }
        i := i + 1;
      }
      return true;
    }

    method HandleCreateStream(session: SessionContext) returns (responses: seq<Response>)
      modifies session, streamRegistry
      ensures Turn(session.V(), streamRegistry.S(), responses)
           == CreatingStream(old(session.V()), old(streamRegistry.S()))
    {
      if session.appName == "" {
        return [Error("NetStream.Failed")];
      }
      var id := streamRegistry.AllocateStreamId();
      session.streamId := id;
      return [StreamCreated(id)];
    }

    method HandlePublish(name: string, session: SessionContext) returns (responses: seq<Response>)
      modifies session, streamRegistry
      ensures Turn(session.V(), streamRegistry.S(), responses)
           == PublishingStream(name, session.connectionId, old(session.V()), old(streamRegistry.S()))
    {
      if session.streamId == 0 {
        return [OnStatus("error", "NetStream.Publish.Failed", session.streamId)];
      }
      if name == "" {
        return [OnStatus("error", "NetStream.Publish.BadName", session.streamId)];
      }
      var outcome := streamRegistry.RegisterStream(StreamKey(session.appName, name), session.streamId, session.connectionId);
      if outcome.Failure? {
        return [OnStatus("error", "NetStream.Publish.BadName", session.streamId)];
      }
      session.state := Publishing;
      session.streamKey := name;
      return [OnStatus("status", "NetStream.Publish.Start", session.streamId)];
    }

    method HandlePlay(name: string, session: SessionContext) returns (responses: seq<Response>)
      modifies session, streamRegistry
      ensures Turn(session.V(), streamRegistry.S(), responses)
           == PlayingStream(name, session.connectionId, old(session.V()), old(streamRegistry.S()))
    {
      if session.streamId == 0 {
        return [OnStatus("error", "NetStream.Play.Failed", session.streamId)];
      }
      if name == "" {
        return [OnStatus("error", "NetStream.Play.Failed", session.streamId)];
      }
      var key := StreamKey(session.appName, name);
      var live := streamRegistry.HasStream(key);
      if !live {
        return [OnStatus("error", "NetStream.Play.StreamNotFound", session.streamId)];
      }
      ghost var r := streamRegistry.S();
      var outcome := streamRegistry.AddSubscriber(key, session.connectionId);
      if outcome.Failure? {
        assert r.streams[key].subscribers + {session.connectionId} == r.streams[key].subscribers;
        assert r.streams[key := r.streams[key]] == r.streams;
        return [OnStatus("error", "NetStream.Play.Failed", session.streamId)];
      }
      session.state := Subscribing;
      session.streamKey := name;
      return [OnStatus("status", "NetStream.Play.Reset", session.streamId),
              OnStatus("status", "NetStream.Play.Start", session.streamId)];
    }

    /** What deleteStream and closeStream begin with. */
    method Vacate(session: SessionContext)
      modifies streamRegistry
      ensures streamRegistry.S() == Vacated(session.connectionId, session.V(), old(streamRegistry.S()))
    {
      if session.state == Publishing && session.streamKey != "" {
        var _ := streamRegistry.UnregisterStream(StreamKey(session.appName, session.streamKey));
      }
      if session.state == Subscribing && session.streamKey != "" {
        var _ := streamRegistry.RemoveSubscriber(StreamKey(session.appName, session.streamKey), session.connectionId);
      }
    }

    method HandleDeleteStream(target: StreamId, session: SessionContext) returns (responses: seq<Response>)
      modifies session, streamRegistry
      ensures Turn(session.V(), streamRegistry.S(), responses)
           == DeletingStream(target, session.connectionId, old(session.V()), old(streamRegistry.S()))
    {
      var id := target;
      if id == 0 {
        id := session.streamId;
      }
      if id == 0 {
        return [];
      }
      Vacate(session);
      streamRegistry.ReleaseStreamId(id);
      session.state := Connected;
      session.streamId := 0;
      session.streamKey := "";
      return [];
    }

    method HandleCloseStream(session: SessionContext) returns (responses: seq<Response>)
      modifies session, streamRegistry
      ensures Turn(session.V(), streamRegistry.S(), responses)
           == ClosingStream(session.connectionId, old(session.V()), old(streamRegistry.S()))
    {
      Vacate(session);
      session.state := Connected;
      session.streamKey := "";
      return [];
    }
  }
}
