/** The connection pool: entries handed out under fresh handles and taken back, up to a limit. */
module ConnectionPool {
  import opened Options

  type Handle = nat

  const INVALID_HANDLE: Handle := 0
  const DEFAULT_PREALLOCATE_PERCENT: nat := 50

  datatype Config = Config(maxConnections: nat, preAllocateCount: nat)

  /** `connectionId` is the id field of the entry's connection; a reset clears it. */
  datatype Entry = Entry(handle: Handle, inUse: bool, connectionId: nat)

  datatype Statistics = Statistics(
    totalAllocatedConnections: nat,
    connectionsInUse: nat,
    availableConnections: nat,
    peakConnectionsInUse: nat,
    totalAcquires: nat,
    totalReleases: nat,
    rejectedConnections: nat)

  datatype State = State(
    maxConnections: nat,
    entries: seq<Entry>,
    availableIndices: seq<nat>,
    handleToIndex: map<Handle, nat>,
    nextHandle: Handle,
    statistics: Statistics)

  // ----- configuration

  function PlatformDefault(platformMax: nat): Config {
    Config(platformMax, platformMax * DEFAULT_PREALLOCATE_PERCENT / 100)
  }

  /** The configuration the constructor settles on; `platformMax` is 1000 on desktops and 100 on mobile systems. */
  function Effective(config: Config, platformMax: nat): (r: Config)
    requires platformMax > 0
    ensures 1 <= r.preAllocateCount <= r.maxConnections
    ensures r.maxConnections == if config.maxConnections == 0 then platformMax else config.maxConnections
    ensures 1 <= config.preAllocateCount <= config.maxConnections ==> r == config
    ensures config.preAllocateCount > config.maxConnections > 0 ==> r.preAllocateCount == r.maxConnections
  {
    var c := if config.maxConnections == 0 then PlatformDefault(platformMax) else config;
    var clamped := if c.preAllocateCount > c.maxConnections then c.maxConnections else c.preAllocateCount;
    var percent := c.maxConnections * DEFAULT_PREALLOCATE_PERCENT / 100;
    c.(preAllocateCount := if clamped != 0 then clamped else if percent == 0 then 1 else percent)
  }

  /** By default half of the maximum is made in advance, and one at least. */
  lemma DefaultIsHalf(config: Config, platformMax: nat)
    requires platformMax > 0 && config.preAllocateCount == 0
    ensures config.maxConnections > 0 ==>
              Effective(config, platformMax).preAllocateCount
                == if config.maxConnections == 1 then 1 else config.maxConnections / 2
    ensures config.maxConnections == 0 ==>
              Effective(config, platformMax) == Config(platformMax, if platformMax == 1 then 1 else platformMax / 2)
  {}

  // ----- operations

  function Grown(s: State): State {
    s.(entries := s.entries + [Entry(INVALID_HANDLE, false, 0)],
       statistics := s.statistics.(totalAllocatedConnections := s.statistics.totalAllocatedConnections + 1))
  }

  /** A free entry is made if there is none and the limit allows. */
  function Stocked(s: State): State {
    if s.availableIndices == [] && |s.entries| < s.maxConnections
    then Grown(s).(availableIndices := [|s.entries|])
    else s
  }

  /** The free entry waiting longest is handed out under the next handle. */
  function HandedOut(s: State): State
    requires s.availableIndices != [] && s.availableIndices[0] < |s.entries|
  {
    var index := s.availableIndices[0];
    var inUse := s.statistics.connectionsInUse + 1;
    s.(entries := s.entries[index := Entry(s.nextHandle, true, s.nextHandle)],
       availableIndices := s.availableIndices[1..],
       handleToIndex := s.handleToIndex[s.nextHandle := index],
       nextHandle := s.nextHandle + 1,
       statistics := s.statistics.(
         connectionsInUse := inUse,
         availableConnections := |s.availableIndices| - 1,
         peakConnectionsInUse := if inUse > s.statistics.peakConnectionsInUse then inUse else s.statistics.peakConnectionsInUse))
  }

  function Asked(s: State): State {
    s.(statistics := s.statistics.(totalAcquires := s.statistics.totalAcquires + 1))
  }

  function Refused(s: State): State {
    s.(statistics := s.statistics.(rejectedConnections := s.statistics.rejectedConnections + 1))
  }

  predicate CanAcquire(s: State) {
    s.availableIndices != [] || |s.entries| < s.maxConnections
  }

  function Acquired(s: State): State
    requires Valid(s)
  {
    if CanAcquire(s) then HandedOut(Stocked(Asked(s))) else Refused(Asked(s))
  }

  function Returned(s: State, handle: Handle): State
    requires Valid(s)
  {
    if handle == INVALID_HANDLE || handle !in s.handleToIndex then s
    else
      var index := s.handleToIndex[handle];
      s.(entries := s.entries[index := Entry(handle, false, 0)],
         availableIndices := s.availableIndices + [index],
         handleToIndex := s.handleToIndex - {handle},
         statistics := s.statistics.(
           connectionsInUse := s.statistics.connectionsInUse - 1,
           totalReleases := s.statistics.totalReleases + 1,
           availableConnections := |s.availableIndices| + 1))
  }

  function Reset(e: Entry): Entry {
    if e.inUse then Entry(e.handle, false, 0) else e
  }

  function ResetAll(entries: seq<Entry>): (r: seq<Entry>)
    ensures |r| == |entries| && forall k :: 0 <= k < |r| ==> r[k] == Reset(entries[k])
  {
    seq(|entries|, i requires 0 <= i < |entries| => Reset(entries[i]))
  }

  function Indices(n: nat): (r: seq<nat>)
    ensures |r| == n && forall k :: 0 <= k < n ==> r[k] == k
  {
    seq(n, i => i)
  }

  function Cleared(s: State): State {
    s.(entries := ResetAll(s.entries),
       availableIndices := Indices(|s.entries|),
       handleToIndex := map[],
       statistics := s.statistics.(connectionsInUse := 0, availableConnections := |s.entries|))
  }

  // ----- the invariant

  /** The queue holds positions of free entries, each once. */
  predicate FreeQueue(entries: seq<Entry>, free: seq<nat>) {
    && (forall i :: 0 <= i < |free| ==> free[i] < |entries| && !entries[free[i]].inUse)
    && (forall i, j :: 0 <= i < j < |free| ==> free[i] != free[j])
  }

  /** Every live handle was issued, and leads to the entry in use that bears it. */
  predicate LiveHandles(entries: seq<Entry>, live: map<Handle, nat>, nextHandle: Handle) {
    forall h :: h in live ==>
      0 < h < nextHandle && live[h] < |entries| && entries[live[h]].inUse && entries[live[h]].handle == h
  }

  /** No entry is lost: one in use is found under its handle, a free one is queued. */
  predicate Covered(entries: seq<Entry>, free: seq<nat>, live: map<Handle, nat>) {
    forall k :: 0 <= k < |entries| ==>
      if entries[k].inUse then entries[k].handle in live && live[entries[k].handle] == k else k in free
  }

  /** A connection that is handed out carries its handle as its id, one that is free carries none. */
  predicate ConnectionIds(entries: seq<Entry>) {
    forall k :: 0 <= k < |entries| ==> entries[k].connectionId == if entries[k].inUse then entries[k].handle else 0
  }

  predicate Counted(s: State) {
    && |s.entries| <= s.maxConnections && 0 < s.nextHandle
    && |s.handleToIndex| + |s.availableIndices| == |s.entries|
    && s.statistics.connectionsInUse == |s.handleToIndex| <= s.statistics.peakConnectionsInUse
    && s.statistics.availableConnections == |s.availableIndices|
    && s.statistics.totalAllocatedConnections == |s.entries|
  }

  predicate Valid(s: State) {
    && FreeQueue(s.entries, s.availableIndices)
    && LiveHandles(s.entries, s.handleToIndex, s.nextHandle)
    && Covered(s.entries, s.availableIndices, s.handleToIndex)
    && Counted(s)
  }

  lemma GrownIds(entries: seq<Entry>)
    ensures ConnectionIds(entries) ==> ConnectionIds(entries + [Entry(INVALID_HANDLE, false, 0)])
  {}

  lemma GrownCovered(entries: seq<Entry>, free: seq<nat>, live: map<Handle, nat>, e: Entry)
    requires Covered(entries, free, live) && !e.inUse
    ensures Covered(entries + [e], free + [|entries|], live)
  {
    var queue := free + [|entries|];
    assert queue[|free|] == |entries|;
    assert forall k :: k in free ==> k in queue;
  }

  lemma GrownValid(s: State)
    requires Valid(s) && |s.entries| < s.maxConnections
    ensures var t := Grown(s);
            Valid(t.(availableIndices := s.availableIndices + [|s.entries|],
                     statistics := t.statistics.(availableConnections := |s.availableIndices| + 1)))
  {
    hide Covered;
    GrownCovered(s.entries, s.availableIndices, s.handleToIndex, Entry(INVALID_HANDLE, false, 0));
  }

  lemma TakenCovered(entries: seq<Entry>, free: seq<nat>, live: map<Handle, nat>, h: Handle, id: nat)
    requires FreeQueue(entries, free) && free != [] && Covered(entries, free, live) && h !in live
    ensures Covered(entries[free[0] := Entry(h, true, id)], free[1..], live[h := free[0]])
  {}

  lemma HandedOutValid(s: State)
    requires Valid(s) && FirstFreeAt(s)
    ensures Valid(HandedOut(s))
  {
    hide Covered;
    TakenCovered(s.entries, s.availableIndices, s.handleToIndex, s.nextHandle, s.nextHandle);
  }

  lemma ReturnedCovered(entries: seq<Entry>, free: seq<nat>, live: map<Handle, nat>, h: Handle)
    requires Covered(entries, free, live) && h in live && live[h] < |entries| && entries[live[h]].handle == h
    ensures Covered(entries[live[h] := Entry(h, false, 0)], free + [live[h]], live - {h})
  {
    var queue := free + [live[h]];
    assert queue[|free|] == live[h];
    assert forall k :: k in free ==> k in queue;
  }

  lemma ReturnedLive(entries: seq<Entry>, live: map<Handle, nat>, nextHandle: Handle, h: Handle)
    requires LiveHandles(entries, live, nextHandle) && h in live
    ensures LiveHandles(entries[live[h] := Entry(h, false, 0)], live - {h}, nextHandle)
    ensures |live - {h}| == |live| - 1
  {
    assert (live - {h}).Keys == live.Keys - {h};
  }

  lemma ReturnedFree(entries: seq<Entry>, free: seq<nat>, k: nat, e: Entry)
    requires FreeQueue(entries, free) && k < |entries| && entries[k].inUse && !e.inUse
    ensures FreeQueue(entries[k := e], free + [k])
  {}

  lemma ReturnedValid(s: State, handle: Handle)
    requires Valid(s)
    ensures Valid(Returned(s, handle))
  {
    hide Covered, FreeQueue;
    if handle != INVALID_HANDLE && handle in s.handleToIndex {
      ReturnedCovered(s.entries, s.availableIndices, s.handleToIndex, handle);
      ReturnedLive(s.entries, s.handleToIndex, s.nextHandle, handle);
      ReturnedFree(s.entries, s.availableIndices, s.handleToIndex[handle], Entry(handle, false, 0));
      hide LiveHandles;
    }
  }

  lemma ClearedValid(s: State)
    requires Valid(s)
    ensures Valid(Cleared(s))
  {
    var t := Cleared(s);
    forall k | 0 <= k < |t.entries| ensures k in t.availableIndices {
      assert t.availableIndices[k] == k;
    }
  }

  lemma StockedLike(s: State)
    requires Valid(s)
    ensures var t := Stocked(Asked(s));
            && (CanAcquire(s) <==> t.availableIndices != [])
            && Valid(t.(statistics := t.statistics.(availableConnections := |t.availableIndices|)))
  {
    var t := Asked(s);
    assert Valid(t);
    if s.availableIndices == [] && |s.entries| < s.maxConnections {
      GrownValid(t);
      assert t.availableIndices + [|t.entries|] == [|t.entries|];
    }
  }

  lemma RefusedValid(s: State)
    requires Valid(s)
    ensures Valid(Refused(Asked(s)))
  {}

  lemma AcquiredValid(s: State)
    requires Valid(s)
    ensures Valid(Acquired(s))
  {
    hide Valid;
    StockedLike(s);
    RefusedValid(s);
    FirstFreeIf(s);
    var t := Stocked(Asked(s));
    hide Stocked;
    var u := t.(statistics := t.statistics.(availableConnections := |t.availableIndices|));
    if CanAcquire(s) {
      HandedOutValid(u);
      assert HandedOut(u) == HandedOut(t);
    }
  }

  /** An acquire is refused exactly if `maxConnections` are in use; else it adds exactly one live handle, the next one. */
  lemma AcquireRefused(s: State)
    requires Valid(s)
    ensures CanAcquire(s) <==> |s.handleToIndex| < s.maxConnections
    ensures var t := Acquired(s);
            if CanAcquire(s) then s.nextHandle !in s.handleToIndex && t.handleToIndex.Keys == s.handleToIndex.Keys + {s.nextHandle}
            else t.handleToIndex == s.handleToIndex && t.entries == s.entries
  {
    hide Covered, FreeQueue;
    FirstFreeIf(s);
  }

  /** The free queue and the indices of the live handles partition the entries, each side without duplicates. */
  lemma Partition(s: State)
    requires Valid(s)
    ensures forall k :: 0 <= k < |s.entries| ==>
              (k in s.availableIndices <==> !exists h :: h in s.handleToIndex && s.handleToIndex[h] == k)
    ensures forall g, h :: g in s.handleToIndex && h in s.handleToIndex && g != h ==> s.handleToIndex[g] != s.handleToIndex[h]
    ensures forall i, j :: 0 <= i < j < |s.availableIndices| ==> s.availableIndices[i] != s.availableIndices[j]
  {}

  class Pool {
    const maxConnections: nat
    var entries: seq<Entry>
    var availableIndices: seq<nat>
    var handleToIndex: map<Handle, nat>
    var nextHandle: Handle
    var statistics: Statistics

    ghost function S(): State
      reads this
    {
      State(maxConnections, entries, availableIndices, handleToIndex, nextHandle, statistics)
    }

    constructor (config: Config, platformMax: nat)
      requires platformMax > 0
      ensures Valid(S()) && maxConnections == Effective(config, platformMax).maxConnections
      ensures |entries| == Effective(config, platformMax).preAllocateCount
      ensures handleToIndex == map[] && nextHandle == 1
      ensures statistics == Statistics(|entries|, 0, |entries|, 0, 0, 0, 0)
      ensures ConnectionIds(entries)
    {
      var c := Effective(config, platformMax);
      maxConnections := c.maxConnections;
      entries, availableIndices, handleToIndex, nextHandle := [], [], map[], 1;
      statistics := Statistics(0, 0, 0, 0, 0, 0, 0);
      new;
      PreAllocate(c.preAllocateCount);
    }

    method PreAllocate(count: nat)
      requires Valid(S()) && |entries| + count <= maxConnections
      modifies this
      ensures Valid(S()) && |entries| == old(|entries|) + count
      ensures handleToIndex == old(handleToIndex) && nextHandle == old(nextHandle)
      ensures statistics == old(statistics).(totalAllocatedConnections := |entries|, availableConnections := |availableIndices|)
      ensures old(ConnectionIds(entries)) ==> ConnectionIds(entries)
    {
      CountedRight(S());
      hide Valid, ConnectionIds;
      var i: nat := 0;
      while i < count
        invariant i <= count && |entries| == old(|entries|) + i
        invariant handleToIndex == old(handleToIndex) && nextHandle == old(nextHandle)
        invariant Valid(Recounted(S()))
        invariant statistics == old(statistics).(totalAllocatedConnections := statistics.totalAllocatedConnections)
        invariant old(ConnectionIds(entries)) ==> ConnectionIds(entries)
      {
        AddEntry();
        i := i + 1;
      }
      statistics := statistics.(availableConnections := |availableIndices|);
      AllocatedRight(S());
    }

    method AddEntry()
      requires Valid(Recounted(S())) && |entries| < maxConnections
      modifies this
      ensures Valid(Recounted(S())) && |entries| == old(|entries|) + 1
      ensures handleToIndex == old(handleToIndex) && nextHandle == old(nextHandle)
      ensures statistics == old(statistics).(totalAllocatedConnections := statistics.totalAllocatedConnections)
      ensures old(ConnectionIds(entries)) ==> ConnectionIds(entries)
    {
      hide Valid, ConnectionIds;
      GrownValid(Recounted(S()));
      GrownIds(entries);
      var made := AllocateEntry();
      if made {
        availableIndices := availableIndices + [|entries| - 1];
      }
    }

    /** Makes a new entry unless the limit is reached. */
    method AllocateEntry() returns (made: bool)
      modifies `entries, `statistics
      ensures made <==> old(|entries|) < maxConnections
      ensures S() == if made then Grown(old(S())) else old(S())
    {
      if |entries| >= maxConnections {
        return false;
      }
      entries := entries + [Entry(INVALID_HANDLE, false, 0)];
      statistics := statistics.(totalAllocatedConnections := statistics.totalAllocatedConnections + 1);
      return true;
    }

    method Acquire() returns (handle: Option<Handle>)
      requires Valid(S())
      modifies this
      ensures Valid(S()) && S() == Acquired(old(S()))
      ensures handle == if old(|handleToIndex|) < maxConnections then Some(old(nextHandle)) else None
    {
      hide Valid, HandedOut, CanAcquire;
      ghost var s := S();
      AcquiredValid(s);
      AcquireRefused(s);
      StockedLike(s);
      FirstFreeIf(s);
      statistics := statistics.(totalAcquires := statistics.totalAcquires + 1);
      assert S() == Asked(s);
      Stock();
      hide Stocked, Asked;
      if availableIndices == [] {
        statistics := statistics.(rejectedConnections := statistics.rejectedConnections + 1);
        return None;
      }
      var h := HandOut();
      return Some(h);
    }

    method Stock()
      modifies `entries, `availableIndices, `statistics
      ensures S() == Stocked(old(S()))
    {
      if availableIndices == [] {
        if |entries| < maxConnections {
          var entry := AllocateEntry();
          if entry {
            availableIndices := availableIndices + [|entries| - 1];
          }
        }
      }
    }

    method HandOut() returns (h: Handle)
      requires FirstFreeAt(S())
      modifies this
      ensures h == old(nextHandle) && S() == HandedOut(old(S()))
    {
      var index := availableIndices[0];
      availableIndices := availableIndices[1..];
      h := nextHandle;
      nextHandle := nextHandle + 1;
      entries := entries[index := Entry(h, true, h)];
      handleToIndex := handleToIndex[h := index];
      statistics := statistics.(connectionsInUse := statistics.connectionsInUse + 1,
                                availableConnections := |availableIndices|);
      if statistics.connectionsInUse > statistics.peakConnectionsInUse {
        statistics := statistics.(peakConnectionsInUse := statistics.connectionsInUse);
      }
    }

    method Release(handle: Handle)
      requires Valid(S())
      modifies this
      ensures Valid(S()) && S() == Returned(old(S()), handle)
    {
      hide Valid;
      ReturnedValid(S(), handle);
      LiveEntry(S(), handle);
      if handle == INVALID_HANDLE {
        return;
      }
      if handle !in handleToIndex {
        return;
      }
      var index := handleToIndex[handle];
      if !entries[index].inUse {
        return;
      }
      entries := entries[index := Entry(entries[index].handle, false, 0)];
      handleToIndex := handleToIndex - {handle};
      availableIndices := availableIndices + [index];
      statistics := statistics.(connectionsInUse := statistics.connectionsInUse - 1,
                                totalReleases := statistics.totalReleases + 1,
                                availableConnections := |availableIndices|);
    }

    /** The connection of a live handle carries the handle as its id; a handle that is not live has none. */
    method GetConnection(handle: Handle) returns (index: Option<nat>)
      requires Valid(S())
      ensures index.Some? <==> handle in handleToIndex
      ensures index.Some? ==> index.value < |entries| && entries[index.value].inUse && entries[index.value].handle == handle
    {
      if handle == INVALID_HANDLE {
        return None;
      }
      if handle !in handleToIndex {
        return None;
      }
      if !entries[handleToIndex[handle]].inUse {
        return None;
      }
      return Some(handleToIndex[handle]);
    }

    method Clear()
      requires Valid(S())
      modifies this
      ensures Valid(S()) && S() == Cleared(old(S()))
    {
      ClearedValid(S());
      hide Valid;
      ResetEntries();
      handleToIndex := map[];
      RebuildAvailable();
      statistics := statistics.(connectionsInUse := 0, availableConnections := |availableIndices|);
    }

    method ResetEntries()
      modifies `entries
      ensures entries == ResetAll(old(entries))
    {
      ghost var was := entries;
      var i: nat := 0;
      while i < |entries|
        invariant |entries| == |was| && i <= |entries|
        invariant forall k :: 0 <= k < i ==> entries[k] == Reset(was[k])
        invariant forall k :: i <= k < |entries| ==> entries[k] == was[k]
      {
        if entries[i].inUse {
          entries := entries[i := Entry(entries[i].handle, false, 0)];
        }
        i := i + 1;
      }
    }

    method RebuildAvailable()
      modifies `availableIndices
      ensures availableIndices == Indices(|entries|)
    {
      availableIndices := [];
      var i: nat := 0;
      while i < |entries|
        invariant i <= |entries| && |availableIndices| == i
        invariant forall k :: 0 <= k < i ==> availableIndices[k] == k
      {
        availableIndices := availableIndices + [i];
        i := i + 1;
      }
    }
  }

  lemma LiveEntry(s: State, handle: Handle)
    requires Valid(s)
    ensures handle in s.handleToIndex ==>
              && s.handleToIndex[handle] < |s.entries| && s.statistics.connectionsInUse > 0
              && s.entries[s.handleToIndex[handle]].inUse && s.entries[s.handleToIndex[handle]].handle == handle
  {}

  /** The state once the number of free entries has been counted anew. */
  ghost function Recounted(s: State): State {
    s.(statistics := s.statistics.(availableConnections := |s.availableIndices|))
  }

  lemma AllocatedRight(s: State)
    requires Valid(s)
    ensures s.statistics.totalAllocatedConnections == |s.entries|
  {}

  lemma CountedRight(s: State)
    requires Valid(s)
    ensures s == Recounted(s)
  {}

  lemma FirstFree(s: State)
    requires Valid(s) && CanAcquire(s)
    ensures var t := Stocked(Asked(s));
            t.availableIndices != [] && t.availableIndices[0] < |t.entries|
  {}

  // ----- runs

  datatype Op = Acquire | Release(handle: Handle) | Clear

  function Apply(s: State, op: Op): State
    requires Valid(s)
  {
    match op
    case Acquire => Acquired(s)
    case Release(handle) => Returned(s, handle)
    case Clear => Cleared(s)
  }

  lemma ApplyValid(s: State, op: Op)
    requires Valid(s)
    ensures Valid(Apply(s, op))
  {
    hide Valid;
    match op
    case Acquire => AcquiredValid(s);
    case Release(handle) => ReturnedValid(s, handle);
    case Clear => ClearedValid(s);
  }

  function ApplyAll(s: State, ops: seq<Op>): (t: State)
    requires Valid(s)
    ensures Valid(t)
    decreases |ops|
  {
    if ops == [] then s
    else
      ApplyValid(s, ops[0]);
      ApplyAll(Apply(s, ops[0]), ops[1..])
  }

  /** The handles a run hands out, in order. */
  function Issued(s: State, ops: seq<Op>): seq<Handle>
    requires Valid(s)
    decreases |ops|
  {
    if ops == [] then []
    else
      ApplyValid(s, ops[0]);
      (if ops[0].Acquire? && CanAcquire(s) then [s.nextHandle] else []) + Issued(Apply(s, ops[0]), ops[1..])
  }

  lemma StepHandles(s: State, op: Op, handle: Handle)
    requires Valid(s)
    ensures var t := Apply(s, op); var issues := op.Acquire? && CanAcquire(s);
            && t.nextHandle == s.nextHandle + (if issues then 1 else 0)
            && (handle in t.handleToIndex ==> handle in s.handleToIndex || (issues && handle == s.nextHandle))
  {
    hide Valid;
    match op
    case Acquire => AcquireRefused(s); FirstFreeIf(s);
    case Release(_) =>
    case Clear =>
  }

  lemma FirstFreeIf(s: State)
    requires Valid(s)
    ensures CanAcquire(s) ==> FirstFreeAt(Stocked(Asked(s)))
  {
    if CanAcquire(s) {
      FirstFree(s);
    }
  }

  predicate FirstFreeAt(t: State) {
    t.availableIndices != [] && t.availableIndices[0] < |t.entries|
  }

  /** Handles are issued one after the other: the i-th acquire of a run that succeeds gets the i-th next number. */
  lemma {:induction false} HandlesAreNew(s: State, ops: seq<Op>)
    requires Valid(s)
    ensures ApplyAll(s, ops).nextHandle == s.nextHandle + |Issued(s, ops)|
    ensures forall i :: 0 <= i < |Issued(s, ops)| ==> Issued(s, ops)[i] == s.nextHandle + i
    decreases |ops|
  {
    hide Valid, Apply;
    if ops != [] {
      ApplyValid(s, ops[0]);
      StepHandles(s, ops[0], 0);
      HandlesAreNew(Apply(s, ops[0]), ops[1..]);
    }
  }

  /** A handle that has been given back is never live again, whatever follows. */
  lemma {:induction false} NeverReissued(s: State, ops: seq<Op>, handle: Handle)
    requires Valid(s) && handle < s.nextHandle && handle !in s.handleToIndex
    ensures handle !in ApplyAll(s, ops).handleToIndex
    decreases |ops|
  {
    hide Valid, Apply;
    if ops != [] {
      ApplyValid(s, ops[0]);
      StepHandles(s, ops[0], handle);
      NeverReissued(Apply(s, ops[0]), ops[1..], handle);
    }
  }

  /** The invalid handle 0 is never handed out. */
  lemma ZeroNeverIssued(s: State, ops: seq<Op>)
    requires Valid(s)
    ensures 0 !in Issued(s, ops) && 0 !in ApplyAll(s, ops).handleToIndex
  {
    hide Issued, ApplyAll, Covered, FreeQueue;
    HandlesAreNew(s, ops);
    assert Valid(ApplyAll(s, ops));
  }

  // ----- giving back and taking again

  /** After a live handle is given back, the others are live as they were, the handle is not, and an acquire cannot be refused. */
  lemma ReleaseMakesRoom(s: State, handle: Handle)
    requires Valid(s)
    ensures var t := Returned(s, handle);
            if handle in s.handleToIndex then
              && t.handleToIndex.Keys == s.handleToIndex.Keys - {handle} && CanAcquire(t) && t.nextHandle == s.nextHandle
              && (forall h :: h in t.handleToIndex ==>
                    t.handleToIndex[h] == s.handleToIndex[h] && t.entries[t.handleToIndex[h]] == s.entries[s.handleToIndex[h]])
            else t == s
  {
    hide Covered, FreeQueue, Counted;
  }

  function Acquires(n: nat): seq<Op> {
    if n == 0 then [] else [Acquire] + Acquires(n - 1)
  }

  /** Entries are taken in the order in which they came free: the next `n` handles lead to the `n` foremost of the queue. */
  lemma {:induction false} TakenInOrder(s: State, n: nat, i: nat)
    requires Valid(s) && i < n <= |s.availableIndices|
    ensures var t := ApplyAll(s, Acquires(n));
            s.nextHandle + i in t.handleToIndex && t.handleToIndex[s.nextHandle + i] == s.availableIndices[i]
    decreases n
  {
    hide Valid, Apply;
    var t := Apply(s, Acquire);
    TakesFirst(s);
    assert Acquires(n)[1..] == Acquires(n - 1);
    if i > 0 {
      TakenInOrder(t, n - 1, i - 1);
    } else {
      StaysLive(t, n - 1, s.nextHandle);
    }
  }

  lemma TakesFirst(s: State)
    requires Valid(s) && s.availableIndices != []
    ensures var t := Apply(s, Acquire);
            && Valid(t) && t.nextHandle == s.nextHandle + 1 && t.availableIndices == s.availableIndices[1..]
            && s.nextHandle in t.handleToIndex && t.handleToIndex[s.nextHandle] == s.availableIndices[0]
  {
    ApplyValid(s, Acquire);
    hide Covered, FreeQueue;
  }

  lemma {:induction false} StaysLive(s: State, n: nat, handle: Handle)
    requires Valid(s) && handle in s.handleToIndex && handle < s.nextHandle
    ensures var t := ApplyAll(s, Acquires(n)); handle in t.handleToIndex && t.handleToIndex[handle] == s.handleToIndex[handle]
    decreases n
  {
    hide Valid;
    if n > 0 {
      ApplyValid(s, Acquire);
      AcquireSpares(s, handle);
      hide Apply;
      assert Acquires(n)[1..] == Acquires(n - 1);
      StaysLive(Apply(s, Acquire), n - 1, handle);
    }
  }

  lemma AcquireSpares(s: State, handle: Handle)
    requires Valid(s) && handle in s.handleToIndex && handle < s.nextHandle
    ensures var t := Apply(s, Acquire);
            handle in t.handleToIndex && t.handleToIndex[handle] == s.handleToIndex[handle] && handle < t.nextHandle
  {
    hide Valid;
    FirstFreeIf(s);
  }

  /** What is given back joins the queue at its end. */
  lemma ReturnedLast(s: State, handle: Handle)
    requires Valid(s) && handle in s.handleToIndex
    ensures Returned(s, handle).availableIndices == s.availableIndices + [s.handleToIndex[handle]]
  {
    hide Covered, FreeQueue, Counted;
  }

  // ----- what the connections carry

  lemma StepKeepsIds(s: State, op: Op)
    requires Valid(s) && ConnectionIds(s.entries)
    ensures ConnectionIds(Apply(s, op).entries)
  {
    hide Covered, Counted;
    FirstFreeIf(s);
  }

  /** Over any run a connection that is handed out carries its handle, and one that is free carries no id. */
  lemma {:induction false} IdsThroughout(s: State, ops: seq<Op>)
    requires Valid(s) && ConnectionIds(s.entries)
    ensures ConnectionIds(ApplyAll(s, ops).entries)
    decreases |ops|
  {
    hide Valid, ConnectionIds, Apply;
    if ops != [] {
      ApplyValid(s, ops[0]);
      StepKeepsIds(s, ops[0]);
      IdsThroughout(Apply(s, ops[0]), ops[1..]);
    }
  }

  // ----- the books

  /** What a run asked, was refused and gave back, and the most it had in use at once. */
  datatype Tally = Tally(asked: nat, refused: nat, returned: nat, peak: nat)

  function TallyOf(s: State, ops: seq<Op>): Tally
    requires Valid(s)
    decreases |ops|
  {
    if ops == [] then Tally(0, 0, 0, |s.handleToIndex|)
    else
      ApplyValid(s, ops[0]);
      var later := TallyOf(Apply(s, ops[0]), ops[1..]);
      var op, inUse := ops[0], |s.handleToIndex|;
      Tally((if op.Acquire? then 1 else 0) + later.asked,
            (if op.Acquire? && inUse >= s.maxConnections then 1 else 0) + later.refused,
            (if op.Release? && op.handle in s.handleToIndex then 1 else 0) + later.returned,
            if inUse > later.peak then inUse else later.peak)
  }

  lemma AcquireBooks(s: State)
    requires Valid(s)
    ensures var t := Acquired(s); var u, v := s.statistics, t.statistics; var full := |s.handleToIndex| >= s.maxConnections;
            && t.maxConnections == s.maxConnections
            && v.totalAcquires == u.totalAcquires + 1 && v.totalReleases == u.totalReleases
            && v.rejectedConnections == u.rejectedConnections + (if full then 1 else 0)
            && v.peakConnectionsInUse
               == if !full && u.connectionsInUse + 1 > u.peakConnectionsInUse then u.connectionsInUse + 1 else u.peakConnectionsInUse
  {
    AcquireRefused(s);
    FirstFreeIf(s);
    hide Valid;
  }

  lemma ReleaseBooks(s: State, handle: Handle)
    requires Valid(s)
    ensures var t := Returned(s, handle); var u, v := s.statistics, t.statistics;
            && t.maxConnections == s.maxConnections
            && v == u.(connectionsInUse := v.connectionsInUse, availableConnections := v.availableConnections,
                       totalReleases := u.totalReleases + (if handle in s.handleToIndex then 1 else 0))
  {
    hide Covered, FreeQueue, Counted;
  }

  lemma InUse(s: State)
    requires Valid(s)
    ensures s.statistics.connectionsInUse == |s.handleToIndex| <= s.statistics.peakConnectionsInUse
  {
    hide Covered, FreeQueue, LiveHandles;
  }

  lemma StepBooks(s: State, op: Op)
    requires Valid(s)
    ensures var t := Apply(s, op); var u, v := s.statistics, t.statistics;
            && t.maxConnections == s.maxConnections
            && v.totalAcquires == u.totalAcquires + (if op.Acquire? then 1 else 0)
            && v.rejectedConnections == u.rejectedConnections + (if op.Acquire? && |s.handleToIndex| >= s.maxConnections then 1 else 0)
            && v.totalReleases == u.totalReleases + (if op.Release? && op.handle in s.handleToIndex then 1 else 0)
            && v.peakConnectionsInUse == (if |t.handleToIndex| > u.peakConnectionsInUse then |t.handleToIndex| else u.peakConnectionsInUse)
  {
    ApplyValid(s, op);
    InUse(s);
    InUse(Apply(s, op));
    hide Valid;
    match op
    case Acquire =>
      AcquireBooks(s);
      AcquireCounts(s);
      hide Acquired;
    case Release(handle) =>
      ReleaseBooks(s, handle);
      hide Returned;
    case Clear =>
  }

  lemma AcquireCounts(s: State)
    requires Valid(s)
    ensures Acquired(s).statistics.connectionsInUse
         == s.statistics.connectionsInUse + (if |s.handleToIndex| >= s.maxConnections then 0 else 1)
  {
    AcquireRefused(s);
    FirstFreeIf(s);
    hide Valid;
  }

  lemma PeakBounds(s: State)
    requires Valid(s)
    ensures |s.handleToIndex| <= s.statistics.peakConnectionsInUse
  {}

  /** Over any run the statistics count what was asked, refused and given back, and remember the most in use at once. */
  lemma {:induction false} BooksOfRun(s: State, ops: seq<Op>)
    requires Valid(s)
    ensures var u, v, sum := s.statistics, ApplyAll(s, ops).statistics, TallyOf(s, ops);
            && v.totalAcquires == u.totalAcquires + sum.asked
            && v.rejectedConnections == u.rejectedConnections + sum.refused
            && v.totalReleases == u.totalReleases + sum.returned
            && v.peakConnectionsInUse == (if sum.peak > u.peakConnectionsInUse then sum.peak else u.peakConnectionsInUse)
    decreases |ops|
  {
    hide Valid, Apply;
    PeakBounds(s);
    if ops != [] {
      ApplyValid(s, ops[0]);
      StepBooks(s, ops[0]);
      BooksOfRun(Apply(s, ops[0]), ops[1..]);
    }
  }
}
