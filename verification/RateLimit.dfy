/** The sliding-window limit on authentication attempts, per client address. */
module RateLimit {
  /** Times in milliseconds of a steady clock. */
  type Time = int

  const WINDOW: Time := 60000
  const LIMIT: nat := 5

  type Address(==, !new)

  datatype Attempt = Attempt(ip: Address, now: Time)

  function AttemptsOf(state: map<Address, seq<Time>>, ip: Address): seq<Time> {
    if ip in state then state[ip] else []
  }

  /** The attempts not older than one minute. */
  function Recent(attempts: seq<Time>, now: Time): seq<Time>
    decreases |attempts|
  {
    if attempts == [] then []
    else (if attempts[0] < now - WINDOW then [] else [attempts[0]]) + Recent(attempts[1..], now)
  }

  predicate Allows(state: map<Address, seq<Time>>, a: Attempt) {
    |Recent(AttemptsOf(state, a.ip), a.now)| < LIMIT
  }

  function Checked(state: map<Address, seq<Time>>, a: Attempt): map<Address, seq<Time>> {
    var recent := Recent(AttemptsOf(state, a.ip), a.now);
    state[a.ip := if |recent| < LIMIT then recent + [a.now] else recent]
  }

  class AuthService {
    var rateLimitState: map<Address, seq<Time>>

    constructor ()
      ensures rateLimitState == map[]
    {
      rateLimitState := map[];
    }

    method CheckRateLimit(clientIP: Address, now: Time) returns (allowed: bool)
      modifies this
      ensures allowed <==> Allows(old(rateLimitState), Attempt(clientIP, now))
      ensures rateLimitState == Checked(old(rateLimitState), Attempt(clientIP, now))
    {
      var attempts := if clientIP in rateLimitState then rateLimitState[clientIP] else [];
      attempts := Prune(attempts, now);
      hide Recent;
      if |attempts| >= LIMIT {
        rateLimitState := rateLimitState[clientIP := attempts];
        return false;
      }
      rateLimitState := rateLimitState[clientIP := attempts + [now]];
      return true;
    }
  }

  method Prune(attempts: seq<Time>, now: Time) returns (kept: seq<Time>)
    ensures kept == Recent(attempts, now)
  {
    hide Recent;
    kept := [];
    var i: nat := 0;
    assert attempts[0..] == attempts;
    while i < |attempts|
      invariant i <= |attempts| && kept + Recent(attempts[i..], now) == Recent(attempts, now)
    {
      RecentNext(attempts, i, now);
      if attempts[i] >= now - WINDOW {
        kept := kept + [attempts[i]];
      }
      i := i + 1;
    }
    RecentEnd(attempts, now);
  }

  lemma RecentNext(attempts: seq<Time>, i: nat, now: Time)
    requires i < |attempts|
    ensures Recent(attempts[i..], now)
         == (if attempts[i] < now - WINDOW then [] else [attempts[i]]) + Recent(attempts[i + 1..], now)
  {
    assert attempts[i..][1..] == attempts[i + 1..];
  }

  lemma RecentEnd(attempts: seq<Time>, now: Time)
    ensures Recent(attempts[|attempts|..], now) == []
  {}

  // ----- runs

  function Run(state: map<Address, seq<Time>>, run: seq<Attempt>): map<Address, seq<Time>> {
    if run == [] then state
    else Checked(Run(state, run[..|run| - 1]), run[|run| - 1])
  }

  /** The times of the attempts of one address let through in a run. */
  function AcceptedTimes(run: seq<Attempt>, ip: Address): seq<Time> {
    if run == [] then []
    else
      var front, last := run[..|run| - 1], run[|run| - 1];
      AcceptedTimes(front, ip)
      + (if last.ip == ip && Allows(Run(map[], front), last) then [last.now] else [])
  }

  /** How many of the times lie in the closed window of one minute that ends at `end`. */
  function InWindow(times: seq<Time>, end: Time): nat {
    if times == [] then 0
    else InWindow(times[..|times| - 1], end) + (if end - 60000 <= times[|times| - 1] <= end then 1 else 0)
  }

  /** The clock never goes back. */
  ghost predicate Steady(run: seq<Attempt>) {
    forall i, j :: 0 <= i < j < |run| ==> run[i].now <= run[j].now
  }

  ghost predicate Ascending(times: seq<Time>) {
    forall i, j :: 0 <= i < j < |times| ==> times[i] <= times[j]
  }

  lemma {:induction false} AllRecent(times: seq<Time>, now: Time)
    requires forall i :: 0 <= i < |times| ==> times[i] >= now - WINDOW
    ensures Recent(times, now) == times
    decreases |times|
  {
    if times != [] {
      AllRecent(times[1..], now);
    }
  }

  lemma RecentFirst(times: seq<Time>, now: Time)
    requires times != [] && times[0] < now - WINDOW
    ensures Recent(times, now) == Recent(times[1..], now)
  {}

  /** Pruning an ascending list cuts off its old front. */
  lemma {:induction false} RecentIsSuffix(times: seq<Time>, now: Time)
    requires Ascending(times)
    ensures var recent := Recent(times, now); var n := |times| - |recent|;
            0 <= n && recent == times[n..] && forall i :: 0 <= i < n ==> times[i] < now - WINDOW
    ensures forall i :: 0 <= i < |Recent(times, now)| ==> Recent(times, now)[i] >= now - WINDOW
    decreases |times|
  {
    if times != [] {
      if times[0] >= now - WINDOW {
        AllRecent(times, now);
        hide Recent;
        assert times == times[0..];
      } else {
        RecentFirst(times, now);
        hide Recent;
        var rest := times[1..];
        RecentIsSuffix(rest, now);
        var n := |times| - |Recent(times, now)|;
        assert rest[n - 1..] == times[n..];
        forall i | 0 <= i < n ensures times[i] < now - WINDOW {
          if i > 0 { assert rest[i - 1] == times[i]; }
        }
      }
    }
  }

  /** What is pruned from a suffix that misses old times only is what is pruned from the whole. */
  lemma {:induction false} WindowOfSuffix(times: seq<Time>, n: nat, now: Time)
    requires n <= |times| && forall i :: 0 <= i < n ==> times[i] < now - WINDOW
    ensures InWindow(times, now) == InWindow(times[n..], now)
    decreases |times|
  {
    if n < |times| {
      var front := times[..|times| - 1];
      WindowOfSuffix(front, n, now);
      assert times[n..][..|times| - n - 1] == front[n..];
    } else if times != [] {
      var front := times[..|times| - 1];
      WindowOfSuffix(front, n - 1, now);
      assert front[n - 1..] == [] && times[n..] == [];
    }
  }

  lemma {:induction false} AllInWindow(times: seq<Time>, end: Time)
    requires forall i :: 0 <= i < |times| ==> end - WINDOW <= times[i] <= end
    ensures InWindow(times, end) == |times|
    decreases |times|
  {
    if times != [] {
      AllInWindow(times[..|times| - 1], end);
    }
  }

  /** A later window holds no more of the past. */
  lemma {:induction false} LaterWindow(times: seq<Time>, now: Time, end: Time)
    requires now <= end && forall i :: 0 <= i < |times| ==> times[i] <= now
    ensures InWindow(times, end) <= InWindow(times, now)
    decreases |times|
  {
    if times != [] {
      LaterWindow(times[..|times| - 1], now, end);
    }
  }

  /** The list kept for an address is what was accepted from it, but for times more than a minute before `latest`. */
  ghost predicate Remembers(kept: seq<Time>, times: seq<Time>, latest: Time) {
    && Ascending(times) && (forall i :: 0 <= i < |times| ==> times[i] <= latest)
    && |kept| <= |times| && kept == times[|times| - |kept|..]
    && forall i :: 0 <= i < |times| - |kept| ==> times[i] < latest - WINDOW
  }

  lemma RecentCounts(kept: seq<Time>, times: seq<Time>, latest: Time, now: Time)
    requires Remembers(kept, times, latest) && latest <= now
    ensures |Recent(kept, now)| == InWindow(times, now)
    ensures Remembers(Recent(kept, now), times, now)
  {
    hide Recent, InWindow;
    var n := |times| - |kept|;
    forall i, j | 0 <= i < j < |kept| ensures kept[i] <= kept[j] {
      assert kept[i] == times[n + i] && kept[j] == times[n + j];
    }
    RecentIsSuffix(kept, now);
    var recent := Recent(kept, now);
    var m := |times| - |recent|;
    assert recent == times[m..];
    forall i | 0 <= i < m ensures times[i] < now - WINDOW {
      if i >= n { assert kept[i - n] == times[i]; }
    }
    WindowOfSuffix(times, m, now);
    forall i | 0 <= i < |recent| ensures now - WINDOW <= recent[i] <= now {
      assert recent[i] == times[m + i];
    }
    AllInWindow(recent, now);
  }

  lemma RemembersOneMore(kept: seq<Time>, times: seq<Time>, now: Time)
    requires Remembers(kept, times, now)
    ensures Remembers(kept + [now], times + [now], now)
  {
    forall i | 0 <= i < |times| ensures (times + [now])[i] == times[i] && times[i] <= now {}
  }

  lemma RemembersLater(kept: seq<Time>, times: seq<Time>, latest: Time, now: Time)
    requires Remembers(kept, times, latest) && latest <= now
    ensures Remembers(kept, times, now)
  {}

  function Latest(run: seq<Attempt>, fallback: Time): Time {
    if run == [] then fallback else run[|run| - 1].now
  }

  lemma {:induction false} RunRemembers(run: seq<Attempt>, ip: Address, start: Time)
    requires Steady(run) && (run != [] ==> start <= run[0].now)
    ensures Remembers(AttemptsOf(Run(map[], run), ip), AcceptedTimes(run, ip), Latest(run, start))
    decreases |run|
  {
    hide Remembers, Recent;
    if run == [] {
      NothingYet(start);
    } else {
      var front, last := run[..|run| - 1], run[|run| - 1];
      RunRemembers(front, ip, start);
      var kept, times := AttemptsOf(Run(map[], front), ip), AcceptedTimes(front, ip);
      var latest := Latest(front, start);
      if last.ip == ip {
        RecentCounts(kept, times, latest, last.now);
        RemembersOneMore(Recent(kept, last.now), times, last.now);
        assert times + [] == times;
      } else {
        RemembersLater(kept, times, latest, last.now);
        assert times + [] == times;
      }
    }
  }

  lemma NothingYet(start: Time)
    ensures Remembers([], [], start)
  {}

  /** An attempt is let through exactly if fewer than five of its address were let through in the minute up to it. */
  lemma DecidesByWindow(run: seq<Attempt>, a: Attempt)
    requires Steady(run + [a])
    ensures Allows(Run(map[], run), a) <==> InWindow(AcceptedTimes(run, a.ip), a.now) < 5
  {
    hide Remembers, Recent, InWindow, Run, AcceptedTimes;
    var all := run + [a];
    assert forall i :: 0 <= i < |run| ==> all[i] == run[i];
    assert all[|run|] == a;
    var start := if run == [] then a.now else run[0].now;
    RunRemembers(run, a.ip, start);
    RecentCounts(AttemptsOf(Run(map[], run), a.ip), AcceptedTimes(run, a.ip), Latest(run, start), a.now);
  }

  lemma OneMoreInWindow(times: seq<Time>, now: Time, end: Time)
    requires forall i :: 0 <= i < |times| ==> times[i] <= now
    requires InWindow(times, now) < LIMIT && InWindow(times, end) <= LIMIT
    ensures InWindow(times + [now], end) <= LIMIT
  {
    assert (times + [now])[..|times|] == times;
    if end - WINDOW <= now <= end {
      LaterWindow(times, now, end);
    }
  }

  lemma AcceptedLast(run: seq<Attempt>, ip: Address)
    requires run != []
    ensures var front, last := run[..|run| - 1], run[|run| - 1];
            AcceptedTimes(run, ip) == if last.ip == ip && Allows(Run(map[], front), last)
                                      then AcceptedTimes(front, ip) + [last.now] else AcceptedTimes(front, ip)
  {
    var front := run[..|run| - 1];
    assert AcceptedTimes(front, ip) + [] == AcceptedTimes(front, ip);
  }

  /** With a clock that never goes back, no closed one-minute window holds more than five accepted attempts of an address. */
  lemma {:induction false} WindowBound(run: seq<Attempt>, ip: Address, end: Time)
    requires Steady(run)
    ensures InWindow(AcceptedTimes(run, ip), end) <= 5
    decreases |run|
  {
    hide AcceptedTimes, Run, Recent, Allows;
    if run == [] {
      NoneAccepted(ip);
    } else {
      hide InWindow;
      var front, last := run[..|run| - 1], run[|run| - 1];
      assert front + [last] == run;
      WindowBound(front, ip, end);
      AcceptedLast(run, ip);
      if last.ip == ip && Allows(Run(map[], front), last) {
        DecidesByWindow(front, last);
        RunRemembers(front, ip, run[0].now);
        OneMoreInWindow(AcceptedTimes(front, ip), last.now, end);
      }
    }
  }

  lemma NoneAccepted(ip: Address)
    ensures AcceptedTimes([], ip) == []
  {}

  /** A refusal means that exactly five were let through in the minute before it. */
  lemma RefusedAfterFive(run: seq<Attempt>, a: Attempt)
    requires Steady(run + [a])
    ensures !Allows(Run(map[], run), a) <==> InWindow(AcceptedTimes(run, a.ip), a.now) == 5
  {
    hide InWindow, AcceptedTimes, Run, Recent;
    var all := run + [a];
    forall i, j | 0 <= i < j < |run| ensures run[i].now <= run[j].now {
      assert all[i] == run[i] && all[j] == run[j];
    }
    DecidesByWindow(run, a);
    WindowBound(run, a.ip, a.now);
  }
}
