/** The subscribers of all streams: a map by subscriber and an index by stream, kept in step. */
module SubscriberManager {
  import opened Media
  import opened Options
  import opened Streams
  import SubscriberBuffer
  import SubscriberRun

  type SubscriberId = nat

  datatype Error = StreamNotFound | SubscriberAlreadyExists | SubscriberNotFound

  datatype Outcome = Success | Failure(error: Error)

  /** A subscriber with the queue it alone owns. */
  datatype Entry = Entry(key: StreamKey, config: SubscriberBuffer.Config, buffer: SubscriberBuffer.State)

  /** `log` remembers what was done to each subscriber's queue since it joined. */
  datatype State = State(
    subscribers: map<SubscriberId, Entry>,
    streamSubscribers: map<StreamKey, set<SubscriberId>>,
    log: map<SubscriberId, seq<SubscriberRun.Op>>)

  function Subscribers(s: State, key: StreamKey): set<SubscriberId> {
    if key in s.streamSubscribers then s.streamSubscribers[key] else {}
  }

  /** Both indexes agree, no stream is listed without subscribers, and every queue is what its log made it. */
  ghost predicate Consistent(s: State) {
    && (forall id :: id in s.subscribers ==> id in Subscribers(s, s.subscribers[id].key))
    && (forall key, id :: key in s.streamSubscribers && id in s.streamSubscribers[key] ==>
          id in s.subscribers && s.subscribers[id].key == key)
    && (forall key :: key in s.streamSubscribers ==> s.streamSubscribers[key] != {})
    && (forall id :: id in s.subscribers ==> id in s.log && Logged(s.subscribers[id], s.log[id]))
  }

  ghost predicate Logged(e: Entry, ops: seq<SubscriberRun.Op>) {
    && e.buffer == SubscriberRun.ApplyAll(SubscriberRun.Fresh(e.config), ops).s
    && forall op :: op in ops ==> !op.SetConfig?
  }

  function Joining(key: StreamKey, config: SubscriberBuffer.Config): Entry {
    Entry(key, config, SubscriberRun.Fresh(config).s)
  }

  function Added(s: State, key: StreamKey, id: SubscriberId, config: SubscriberBuffer.Config): State {
    State(s.subscribers[id := Joining(key, config)],
          s.streamSubscribers[key := Subscribers(s, key) + {id}],
          s.log[id := []])
  }

  function Removed(s: State, id: SubscriberId): State {
    if id !in s.subscribers then s
    else
      var key := s.subscribers[id].key;
      var rest := Subscribers(s, key) - {id};
      s.(subscribers := s.subscribers - {id},
         streamSubscribers := if rest == {} then s.streamSubscribers - {key} else s.streamSubscribers[key := rest])
  }

  function Ended(s: State, key: StreamKey): State {
    s.(subscribers := s.subscribers - Subscribers(s, key), streamSubscribers := s.streamSubscribers - {key})
  }

  function Did(s: State, id: SubscriberId, buffer: SubscriberBuffer.State, op: SubscriberRun.Op): State
    requires id in s.subscribers
  {
    s.(subscribers := s.subscribers[id := s.subscribers[id].(buffer := buffer)],
       log := s.log[id := (if id in s.log then s.log[id] else []) + [op]])
  }

  function Sent(s: State, id: SubscriberId, frame: Frame): State {
    if id !in s.subscribers then s
    else Did(s, id, SubscriberBuffer.Pushed(s.subscribers[id].buffer, frame), SubscriberRun.Push(frame))
  }

  function SentAll(s: State, id: SubscriberId, frames: seq<Frame>): State
    decreases |frames|
  {
    if frames == [] then s else SentAll(Sent(s, id, frames[0]), id, frames[1..])
  }

  function Taken(s: State, id: SubscriberId): State {
    if id !in s.subscribers || s.subscribers[id].buffer.frames == [] then s
    else Did(s, id, SubscriberBuffer.Popped(s.subscribers[id].buffer), SubscriberRun.Pop)
  }

  /** One frame to each of `ids`, whatever their order. */
  function Delivered(s: State, ids: set<SubscriberId>, frame: Frame): State {
    s.(subscribers := map id | id in s.subscribers ::
         if id in ids then s.subscribers[id].(buffer := SubscriberBuffer.Pushed(s.subscribers[id].buffer, frame))
         else s.subscribers[id],
       log := map id | id in s.log ::
         if id in ids then s.log[id] + [SubscriberRun.Push(frame)] else s.log[id])
  }

  // ----- what every operation keeps

  lemma {:induction false} ApplyAllLast(r: SubscriberRun.RunState, ops: seq<SubscriberRun.Op>, op: SubscriberRun.Op)
    ensures SubscriberRun.ApplyAll(r, ops + [op]) == SubscriberRun.Apply(SubscriberRun.ApplyAll(r, ops), op)
    decreases |ops|
  {
    hide SubscriberRun.Apply;
    if ops == [] {
      assert [op][1..] == [] && ops + [op] == [op];
    } else {
      assert (ops + [op])[1..] == ops[1..] + [op];
      ApplyAllLast(SubscriberRun.Apply(r, ops[0]), ops[1..], op);
    }
  }

  lemma PushedFramesFirst(ops: seq<SubscriberRun.Op>)
    requires ops != []
    ensures SubscriberRun.PushedFrames(ops)
         == (if ops[0].Push? then [ops[0].frame] else []) + SubscriberRun.PushedFrames(ops[1..])
  {}

  lemma {:induction false} PushedFramesLast(ops: seq<SubscriberRun.Op>, op: SubscriberRun.Op)
    ensures SubscriberRun.PushedFrames(ops + [op])
         == SubscriberRun.PushedFrames(ops) + (if op.Push? then [op.frame] else [])
    decreases |ops|
  {
    if ops == [] {
      assert ops + [op] == [op] && [op][1..] == [];
    } else {
      PushedFramesLast(ops[1..], op);
      PushedFramesFirst(ops);
      PushedFramesFirst(ops + [op]);
      hide SubscriberRun.PushedFrames;
      assert (ops + [op])[1..] == ops[1..] + [op];
      var first := if ops[0].Push? then [ops[0].frame] else [];
      var later := SubscriberRun.PushedFrames(ops[1..]);
      var last := if op.Push? then [op.frame] else [];
      assert first + (later + last) == (first + later) + last;
    }
  }

  lemma LoggedPush(e: Entry, ops: seq<SubscriberRun.Op>, frame: Frame)
    requires Logged(e, ops)
    ensures Logged(e.(buffer := SubscriberBuffer.Pushed(e.buffer, frame)), ops + [SubscriberRun.Push(frame)])
  {
    hide SubscriberRun.ApplyAll, SubscriberBuffer.Pushed;
    ApplyAllLast(SubscriberRun.Fresh(e.config), ops, SubscriberRun.Push(frame));
  }

  lemma LoggedPop(e: Entry, ops: seq<SubscriberRun.Op>)
    requires Logged(e, ops) && e.buffer.frames != []
    ensures Logged(e.(buffer := SubscriberBuffer.Popped(e.buffer)), ops + [SubscriberRun.Pop])
  {
    hide SubscriberRun.ApplyAll, SubscriberBuffer.Popped;
    ApplyAllLast(SubscriberRun.Fresh(e.config), ops, SubscriberRun.Pop);
  }

  lemma AddedConsistent(s: State, key: StreamKey, id: SubscriberId, config: SubscriberBuffer.Config)
    requires Consistent(s) && id !in s.subscribers
    ensures Consistent(Added(s, key, id, config))
  {
    hide Logged;
    assert Logged(Joining(key, config), []) by { LoggedEmpty(key, config); }
  }

  lemma LoggedEmpty(key: StreamKey, config: SubscriberBuffer.Config)
    ensures Logged(Joining(key, config), [])
  {}

  lemma RemovedConsistent(s: State, id: SubscriberId)
    requires Consistent(s)
    ensures Consistent(Removed(s, id))
  {
    hide Logged;
  }

  lemma EndedConsistent(s: State, key: StreamKey)
    requires Consistent(s)
    ensures Consistent(Ended(s, key))
  {
    hide Logged;
    var t := Ended(s, key);
    forall id | id in t.subscribers ensures id in Subscribers(t, t.subscribers[id].key) {
      assert id in Subscribers(s, s.subscribers[id].key);
    }
    assert forall id :: id in Subscribers(s, key) ==> s.subscribers[id].key == key;
    forall other, id | other in t.streamSubscribers && id in t.streamSubscribers[other]
      ensures id in t.subscribers && t.subscribers[id].key == other
    {
      assert other != key && id in s.streamSubscribers[other] && s.subscribers[id].key == other;
    }
  }

  lemma DeliveredConsistent(s: State, ids: set<SubscriberId>, frame: Frame)
    requires Consistent(s)
    ensures Consistent(Delivered(s, ids, frame))
  {
    hide Logged, SubscriberBuffer.Pushed;
    var t := Delivered(s, ids, frame);
    forall id | id in t.subscribers ensures id in t.log && Logged(t.subscribers[id], t.log[id]) {
      assert Logged(s.subscribers[id], s.log[id]);
      LoggedPush(s.subscribers[id], s.log[id], frame);
    }
  }

  lemma SentConsistent(s: State, id: SubscriberId, frame: Frame)
    requires Consistent(s)
    ensures Consistent(Sent(s, id, frame))
  {
    hide Logged, SubscriberBuffer.Pushed;
    if id in s.subscribers {
      LoggedPush(s.subscribers[id], s.log[id], frame);
    }
  }

  lemma {:induction false} SentAllConsistent(s: State, id: SubscriberId, frames: seq<Frame>)
    requires Consistent(s)
    ensures Consistent(SentAll(s, id, frames))
    decreases |frames|
  {
    hide Consistent, Sent;
    if frames != [] {
      SentConsistent(s, id, frames[0]);
      SentAllConsistent(Sent(s, id, frames[0]), id, frames[1..]);
    }
  }

  lemma TakenConsistent(s: State, id: SubscriberId)
    requires Consistent(s)
    ensures Consistent(Taken(s, id))
  {
    hide Logged, SubscriberBuffer.Popped;
    if id in s.subscribers && s.subscribers[id].buffer.frames != [] {
      LoggedPop(s.subscribers[id], s.log[id]);
    }
  }

  // ----- loops over the subscribers of a stream

  /** The stream's subscribers are gone but for `rest`. */
  function PartlyEnded(s: State, key: StreamKey, rest: set<SubscriberId>): State {
    s.(subscribers := s.subscribers - (Subscribers(s, key) - rest),
       streamSubscribers := if rest == {} then s.streamSubscribers - {key} else s.streamSubscribers[key := rest])
  }

  lemma PartlyEndedEnds(s: State, key: StreamKey)
    requires Consistent(s)
    ensures PartlyEnded(s, key, Subscribers(s, key)) == s
    ensures PartlyEnded(s, key, {}) == Ended(s, key)
  {
    hide Logged;
    var all := Subscribers(s, key);
    assert all - all == {} && s.subscribers - {} == s.subscribers;
    assert all - {} == all;
    if key in s.streamSubscribers {
      assert s.streamSubscribers[key := all] == s.streamSubscribers;
    } else {
      assert s.streamSubscribers - {key} == s.streamSubscribers;
    }
  }

  lemma PartlyEndedStep(s: State, key: StreamKey, rest: set<SubscriberId>, id: SubscriberId)
    requires Consistent(s) && id in rest && rest <= Subscribers(s, key)
    ensures Removed(PartlyEnded(s, key, rest), id) == PartlyEnded(s, key, rest - {id})
  {
    hide Logged;
    var t := PartlyEnded(s, key, rest);
    assert id in t.subscribers && t.subscribers[id].key == key;
    assert Subscribers(t, key) == rest;
    assert t.subscribers - {id} == PartlyEnded(s, key, rest - {id}).subscribers;
    if rest - {id} == {} {
      assert t.streamSubscribers - {key} == s.streamSubscribers - {key};
    }
  }

  lemma DeliveredToNone(s: State, frame: Frame)
    ensures Delivered(s, {}, frame) == s
  {
    hide SubscriberBuffer.Pushed;
    assert Delivered(s, {}, frame).subscribers == s.subscribers;
    assert Delivered(s, {}, frame).log == s.log;
  }

  lemma DeliveredToOneMore(s: State, done: set<SubscriberId>, id: SubscriberId, frame: Frame)
    requires id in s.subscribers && id in s.log && id !in done
    ensures Sent(Delivered(s, done, frame), id, frame) == Delivered(s, done + {id}, frame)
  {
    hide SubscriberBuffer.Pushed;
    var t, u := Sent(Delivered(s, done, frame), id, frame), Delivered(s, done + {id}, frame);
    assert t.subscribers == u.subscribers;
    assert t.log == u.log;
  }

  class Manager {
    var subscribers: map<SubscriberId, Entry>
    var streamSubscribers: map<StreamKey, set<SubscriberId>>
    ghost var log: map<SubscriberId, seq<SubscriberRun.Op>>

    ghost function S(): State
      reads this
    {
      State(subscribers, streamSubscribers, log)
    }

    constructor ()
      ensures Consistent(S()) && S() == State(map[], map[], map[])
    {
      subscribers, streamSubscribers, log := map[], map[], map[];
    }

    method AddSubscriber(key: StreamKey, id: SubscriberId, config: SubscriberBuffer.Config, live: bool)
      returns (outcome: Outcome)
      requires Consistent(S())
      modifies this
      ensures Consistent(S())
      ensures outcome == if !live then Failure(StreamNotFound)
                         else if id in old(subscribers) then Failure(SubscriberAlreadyExists) else Success
      ensures S() == if outcome.Success? then Added(old(S()), key, id, config) else old(S())
    {
      hide Consistent, SubscriberRun.Fresh;
      if !live {
        return Failure(StreamNotFound);
      }
      if id in subscribers {
        return Failure(SubscriberAlreadyExists);
      }
      AddedConsistent(S(), key, id, config);
      ghost var s := S();
      subscribers := subscribers[id := Joining(key, config)];
      if key !in streamSubscribers {
        streamSubscribers := streamSubscribers[key := {}];
      }
      streamSubscribers := streamSubscribers[key := streamSubscribers[key] + {id}];
      log := log[id := []];
      assert streamSubscribers == s.streamSubscribers[key := Subscribers(s, key) + {id}];
      return Success;
    }

    method RemoveSubscriber(id: SubscriberId) returns (outcome: Outcome)
      requires Consistent(S())
      modifies this
      ensures Consistent(S()) && S() == Removed(old(S()), id)
      ensures outcome == if id in old(subscribers) then Success else Failure(SubscriberNotFound)
    {
      RemovedConsistent(S(), id);
      if id !in subscribers {
        return Failure(SubscriberNotFound);
      }
      ghost var s := S();
      assert id in Subscribers(s, s.subscribers[id].key);
      hide Consistent;
      var key := subscribers[id].key;
      if key in streamSubscribers {
        streamSubscribers := streamSubscribers[key := streamSubscribers[key] - {id}];
        if streamSubscribers[key] == {} {
          streamSubscribers := streamSubscribers - {key};
          assert streamSubscribers == s.streamSubscribers - {key};
        }
      }
      subscribers := subscribers - {id};
      assert S() == Removed(s, id);
      return Success;
    }

    /** Every subscriber of the stream is removed, one at a time. */
    method OnStreamEnded(key: StreamKey)
      requires Consistent(S())
      modifies this
      ensures Consistent(S()) && S() == Ended(old(S()), key)
    {
      hide Logged, Removed, PartlyEnded, Ended;
      ghost var s := S();
      var subscribersToRemove: set<SubscriberId> := {};
      if key in streamSubscribers {
        subscribersToRemove := streamSubscribers[key];
      }
      PartlyEndedEnds(s, key);
      while subscribersToRemove != {}
        invariant Consistent(S()) && subscribersToRemove <= Subscribers(s, key)
        invariant S() == PartlyEnded(s, key, subscribersToRemove)
        decreases subscribersToRemove
      {
        var id :| id in subscribersToRemove;
        PartlyEndedStep(s, key, subscribersToRemove, id);
        var _ := RemoveSubscriber(id);
        subscribersToRemove := subscribersToRemove - {id};
      }
    }

    method GetSubscribersForStream(key: StreamKey) returns (ids: set<SubscriberId>)
      requires Consistent(S())
      ensures forall id :: id in ids <==> id in subscribers && subscribers[id].key == key
      ensures ids == Subscribers(S(), key)
    {
      if key !in streamSubscribers {
        return {};
      }
      ids := streamSubscribers[key];
    }

    method PushToSubscriber(id: SubscriberId, frame: Frame)
      requires Consistent(S())
      modifies this
      ensures Consistent(S()) && S() == Sent(old(S()), id, frame)
    {
      hide Logged, SubscriberBuffer.Pushed;
      SentConsistent(S(), id, frame);
      if id !in subscribers {
        return;
      }
      var entry := subscribers[id];
      subscribers := subscribers[id := entry.(buffer := SubscriberBuffer.Pushed(entry.buffer, frame))];
      log := log[id := log[id] + [SubscriberRun.Push(frame)]];
    }

    method PopFromSubscriber(id: SubscriberId) returns (frame: Option<Frame>)
      requires Consistent(S())
      modifies this
      ensures Consistent(S()) && S() == Taken(old(S()), id)
      ensures frame == if id in old(subscribers) && old(subscribers)[id].buffer.frames != []
                       then Some(old(subscribers)[id].buffer.frames[0]) else None
    {
      hide Logged, SubscriberBuffer.Popped;
      TakenConsistent(S(), id);
      if id !in subscribers {
        return None;
      }
      var entry := subscribers[id];
      if entry.buffer.frames == [] {
        return None;
      }
      frame := Some(entry.buffer.frames[0]);
      subscribers := subscribers[id := entry.(buffer := SubscriberBuffer.Popped(entry.buffer))];
      log := log[id := log[id] + [SubscriberRun.Pop]];
    }

    method DistributeToStream(key: StreamKey, frame: Frame)
      requires Consistent(S())
      modifies this
      ensures Consistent(S()) && S() == Delivered(old(S()), Subscribers(old(S()), key), frame)
    {
      hide Logged, Sent, Delivered;
      ghost var s := S();
      DeliveredToNone(s, frame);
      if key !in streamSubscribers {
        return;
      }
      var rest := streamSubscribers[key];
      ghost var done: set<SubscriberId> := {};
      while rest != {}
        invariant Consistent(S()) && done + rest == Subscribers(s, key) && done !! rest
        invariant S() == Delivered(s, done, frame)
        decreases rest
      {
        var id :| id in rest;
        DeliveredToOneMore(s, done, id, frame);
        PushToSubscriber(id, frame);
        rest, done := rest - {id}, done + {id};
      }
      assert done == Subscribers(s, key);
    }
  }
}
