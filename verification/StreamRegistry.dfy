/** The live streams by key, an index of them by stream id, and the pool of stream ids. */
module StreamRegistry {
  import opened Bytes
  import opened Options
  import opened Streams

  type StreamId = uint32
  type ConnectionId = nat

  datatype StreamInfo = StreamInfo(streamId: StreamId, publisherId: ConnectionId, subscribers: set<ConnectionId>)

  datatype State = State(
    streams: map<StreamKey, StreamInfo>,
    streamIdIndex: map<StreamId, StreamKey>,
    nextStreamId: uint32,
    releasedIds: seq<StreamId>)

  datatype Error = StreamKeyInUse | StreamNotFound | SubscriberExists | SubscriberNotFound

  datatype Outcome = Success | Failure(error: Error)

  const EMPTY: State := State(map[], map[], 1, [])

  function Next(id: uint32): uint32 {
    (id + 1) % TWO_TO_THE_32
  }

  /** A released id if there is one, the last released first; else the counter, which skips 0 when it wraps. */
  function AllocatedId(r: State): StreamId {
    if r.releasedIds != [] then r.releasedIds[|r.releasedIds| - 1]
    else if r.nextStreamId == 0 then 1 else r.nextStreamId
  }

  function Allocated(r: State): State {
    if r.releasedIds != [] then r.(releasedIds := r.releasedIds[..|r.releasedIds| - 1])
    else r.(nextStreamId := Next(if r.nextStreamId == 0 then 1 else r.nextStreamId))
  }

  function Released(r: State, id: StreamId): State {
    if id == 0 then r else r.(releasedIds := r.releasedIds + [id])
  }

  /** A key in use is refused; an id already in the index keeps its old entry. */
  function Registered(r: State, key: StreamKey, id: StreamId, publisher: ConnectionId): State {
    if key in r.streams then r
    else r.(streams := r.streams[key := StreamInfo(id, publisher, {})],
            streamIdIndex := if id in r.streamIdIndex then r.streamIdIndex else r.streamIdIndex[id := key])
  }

  function Unregistered(r: State, key: StreamKey): State {
    if key !in r.streams then r
    else r.(streams := r.streams - {key}, streamIdIndex := r.streamIdIndex - {r.streams[key].streamId})
  }

  function Joined(r: State, key: StreamKey, subscriber: ConnectionId): State {
    if key !in r.streams then r
    else r.(streams := r.streams[key := r.streams[key].(subscribers := r.streams[key].subscribers + {subscriber})])
  }

  function Left(r: State, key: StreamKey, subscriber: ConnectionId): State {
    if key !in r.streams then r
    else r.(streams := r.streams[key := r.streams[key].(subscribers := r.streams[key].subscribers - {subscriber})])
  }

  function FoundById(r: State, id: StreamId): Option<StreamInfo> {
    if id in r.streamIdIndex && r.streamIdIndex[id] in r.streams then Some(r.streams[r.streamIdIndex[id]]) else None
  }

  /** Every entry of the index names a live stream that has that id. */
  ghost predicate Indexed(r: State) {
    forall id :: id in r.streamIdIndex ==>
      r.streamIdIndex[id] in r.streams && r.streams[r.streamIdIndex[id]].streamId == id
  }

  lemma RegisteredIndexed(r: State, key: StreamKey, id: StreamId, publisher: ConnectionId)
    requires Indexed(r)
    ensures Indexed(Registered(r, key, id, publisher))
  {}

  lemma UnregisteredIndexed(r: State, key: StreamKey)
    requires Indexed(r)
    ensures Indexed(Unregistered(r, key))
  {}

  /** A newly registered stream is found by its id exactly if no live stream was indexed under that id. */
  lemma RegisteredFound(r: State, key: StreamKey, id: StreamId, publisher: ConnectionId)
    requires Indexed(r) && key !in r.streams
    ensures Registered(r, key, id, publisher).streamIdIndex[id] == key <==> FoundById(r, id).None?
    ensures var found := FoundById(Registered(r, key, id, publisher), id);
            found == if FoundById(r, id).None? then Some(StreamInfo(id, publisher, {})) else FoundById(r, id)
  {}

  function AllocatedTimes(k: nat): State {
    if k == 0 then EMPTY else Allocated(AllocatedTimes(k - 1))
  }

  lemma FirstId()
    ensures AllocatedId(EMPTY) == 1
  {}

  lemma NextRemainder(k: nat)
    ensures (k + 1) % 0xFFFF_FFFF == if k % 0xFFFF_FFFF == 0xFFFF_FFFE then 0 else k % 0xFFFF_FFFF + 1
  {}

  lemma AllocatedTwice(r: State)
    requires r.releasedIds == []
    ensures var id := AllocatedId(r); var t := Allocated(r);
            t.releasedIds == [] && AllocatedId(t) == if id == 0xFFFF_FFFF then 1 else id + 1
  {}

  /** As long as none is given back, ids are 1, 2, 3 and so on to 2^32 - 1, and then from 1 again. */
  lemma {:induction false} IdsInTurn(k: nat)
    ensures AllocatedTimes(k).releasedIds == [] && AllocatedId(AllocatedTimes(k)) == k % 0xFFFF_FFFF + 1
    decreases k
  {
    hide Allocated, AllocatedId;
    if k == 0 {
      FirstId();
    } else {
      IdsInTurn(k - 1);
      AllocatedTwice(AllocatedTimes(k - 1));
      NextRemainder(k - 1);
    }
  }

  /** An id given back is the next to be handed out, and handing it out leaves all as it was before; 0 cannot be given back. */
  lemma GivenBackComesNext(r: State, id: StreamId)
    ensures if id == 0 then Released(r, id) == r
            else AllocatedId(Released(r, id)) == id && Allocated(Released(r, id)) == r
  {
    assert (r.releasedIds + [id])[..|r.releasedIds|] == r.releasedIds;
  }

  class Registry {
    var streams: map<StreamKey, StreamInfo>
    var streamIdIndex: map<StreamId, StreamKey>
    var nextStreamId: uint32
    var releasedIds: seq<StreamId>

    ghost function S(): State
      reads this
    {
      State(streams, streamIdIndex, nextStreamId, releasedIds)
    }

    constructor ()
      ensures S() == EMPTY
    {
      streams, streamIdIndex, nextStreamId, releasedIds := map[], map[], 1, [];
    }

    method AllocateStreamId() returns (id: StreamId)
      modifies this
      ensures id == AllocatedId(old(S())) && S() == Allocated(old(S()))
    {
      if releasedIds != [] {
        id := releasedIds[|releasedIds| - 1];
        releasedIds := releasedIds[..|releasedIds| - 1];
        return;
      }
      id := nextStreamId;
      nextStreamId := Next(nextStreamId);
      if id == 0 {
        id := nextStreamId;
        nextStreamId := Next(nextStreamId);
      }
    }

    method ReleaseStreamId(id: StreamId)
      modifies this
      ensures S() == Released(old(S()), id)
    {
      if id == 0 {
        return;
      }
      releasedIds := releasedIds + [id];
    }

    method RegisterStream(key: StreamKey, id: StreamId, publisher: ConnectionId) returns (outcome: Outcome)
      modifies this
      ensures S() == Registered(old(S()), key, id, publisher)
      ensures outcome == if key in old(streams) then Failure(StreamKeyInUse) else Success
    {
      if key in streams {
        return Failure(StreamKeyInUse);
      }
      streams := streams[key := StreamInfo(id, publisher, {})];
      if id !in streamIdIndex {
        streamIdIndex := streamIdIndex[id := key];
      }
      return Success;
    }

    method UnregisterStream(key: StreamKey) returns (outcome: Outcome)
      modifies this
      ensures S() == Unregistered(old(S()), key)
      ensures outcome == if key in old(streams) then Success else Failure(StreamNotFound)
    {
      if key !in streams {
        return Failure(StreamNotFound);
      }
      streamIdIndex := streamIdIndex - {streams[key].streamId};
      streams := streams - {key};
      return Success;
    }

    method FindStreamById(id: StreamId) returns (info: Option<StreamInfo>)
      ensures info == FoundById(S(), id)
      ensures Indexed(S()) ==> (info.Some? <==> id in streamIdIndex) && (info.Some? ==> info.value.streamId == id)
    {
      if id !in streamIdIndex {
        return None;
      }
      if streamIdIndex[id] !in streams {
        return None;
      }
      return Some(streams[streamIdIndex[id]]);
    }

    method HasStream(key: StreamKey) returns (live: bool)
      ensures live <==> key in streams
    {
      live := key in streams;
    }

    method AddSubscriber(key: StreamKey, subscriber: ConnectionId) returns (outcome: Outcome)
      modifies this
      ensures S() == Joined(old(S()), key, subscriber)
      ensures outcome == if key !in old(streams) then Failure(StreamNotFound)
                         else if subscriber in old(streams)[key].subscribers then Failure(SubscriberExists) else Success
    {
      if key !in streams {
        return Failure(StreamNotFound);
      }
      var info := streams[key];
      if subscriber in info.subscribers {
        assert info.(subscribers := info.subscribers + {subscriber}) == info;
        assert streams[key := info] == streams;
        return Failure(SubscriberExists);
      }
      streams := streams[key := info.(subscribers := info.subscribers + {subscriber})];
      return Success;
    }

    method RemoveSubscriber(key: StreamKey, subscriber: ConnectionId) returns (outcome: Outcome)
      modifies this
      ensures S() == Left(old(S()), key, subscriber)
      ensures outcome == if key !in old(streams) then Failure(StreamNotFound)
                         else if subscriber in old(streams)[key].subscribers then Success else Failure(SubscriberNotFound)
    {
      if key !in streams {
        return Failure(StreamNotFound);
      }
      var info := streams[key];
      if subscriber !in info.subscribers {
        assert info.(subscribers := info.subscribers - {subscriber}) == info;
        assert streams[key := info] == streams;
        return Failure(SubscriberNotFound);
      }
      streams := streams[key := info.(subscribers := info.subscribers - {subscriber})];
      return Success;
    }
  }
}
