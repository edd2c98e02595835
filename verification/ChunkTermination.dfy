/** When the parse loop ends: the loop taken literally, turn by turn, with its 32-bit casts. */
module ChunkTermination {
  import opened Bytes
  import opened ChunkStream

  /**
   The source casts the number of bytes left to 32 bits before it compares it with those pending. So a call stalls,
   taking no byte any more, if it is given 4 GB or more and fewer bytes than are pending behind the last full 4 GB.
   */
  predicate Stalls(s: ParserState, d: seq<byte>) {
    |d| >= TWO_TO_THE_32 && s.pendingBytes > |d| % TWO_TO_THE_32
  }

  /** Where a call does not stall, the cast makes no difference. */
  lemma CastIsHarmless(s: ParserState, d: seq<byte>)
    requires !Stalls(s, d)
    ensures Min(s.pendingBytes, |d| % TWO_TO_THE_32) == Min(s.pendingBytes, |d|)
  {}

  /** A call that does not stall at once does not stall later. */
  lemma NoStallAhead(s: ParserState, d: seq<byte>)
    requires s.Valid() && d != [] && !Stalls(s, d)
    ensures !Step(s, d).stop ==> !Stalls(Step(s, d).st, d[Step(s, d).used..])
  {
    hide ReadChunk, ReadBasicHeader;
  }

  /** The loop between two turns: the parser, the bytes left, the messages so far, and whether it has ended. */
  datatype Loop = Loop(st: ParserState, rest: seq<byte>, out: seq<Message>, ended: bool)

  /** One turn with the cast as the source has it; a turn that may take no byte leaves everything as it was. */
  function Turn(l: Loop): (r: Loop)
    requires l.st.Valid()
    ensures r.st.Valid()
  {
    if l.ended then l
    else if l.rest == [] then l.(ended := true)
    else
      var n := Min(l.st.pendingBytes, |l.rest| % TWO_TO_THE_32);
      var p := if l.st.Idle() then StepChunk(l.st, l.rest)
               else if n == 0 then StepResult(l.st, 0, [], false)
               else StepPending(l.st, l.rest[..n]);
      Loop(p.st, l.rest[p.used..], l.out + p.out, p.stop)
  }

  function Turns(l: Loop, k: nat): (r: Loop)
    requires l.st.Valid()
    ensures r.st.Valid()
    decreases k
  {
    if k == 0 then l else Turns(Turn(l), k - 1)
  }

  function Start(s: ParserState, d: seq<byte>): Loop {
    Loop(s, d, [], false)
  }

  lemma TurnIsStep(s: ParserState, d: seq<byte>, out: seq<Message>)
    requires s.Valid() && !Stalls(s, d) && d != []
    ensures var p := Step(s, d);
            Turn(Loop(s, d, out, false)) == Loop(p.st, d[p.used..], out + p.out, p.stop)
  {
    hide StepChunk, Stalls;
    CastIsHarmless(s, d);
    var n := Min(s.pendingBytes, |d|);
    assert d[..n][..n] == d[..n];
  }

  lemma UnfoldTurns(l: Loop, k: nat)
    requires l.st.Valid()
    ensures Turns(l, 0) == l && Turns(l, k + 1) == Turns(Turn(l), k)
  {
    hide Turn;
  }

  lemma UnfoldRun(s: ParserState, d: seq<byte>)
    requires s.Valid()
    ensures Run(s, []) == RunResult(s, 0, [])
    ensures d != [] ==>
              var p := Step(s, d); var q := Run(p.st, d[p.used..]);
              Run(s, d) == if p.stop then RunResult(p.st, p.used, p.out) else RunResult(q.st, p.used + q.used, p.out + q.out)
  {
    hide Step;
  }

  /** The loop as the run leaves it. */
  function Ended(s: ParserState, d: seq<byte>, out: seq<Message>): Loop
    requires s.Valid()
  {
    Loop(Run(s, d).st, Residue(s, d), out + Run(s, d).out, true)
  }

  lemma ResidueAfterTurn(s: ParserState, d: seq<byte>)
    requires s.Valid() && d != []
    ensures var p := Step(s, d);
            Residue(s, d) == if p.stop then d[p.used..] else Residue(p.st, d[p.used..])
  {
    hide Step;
    var p := Step(s, d);
    UnfoldRun(s, d);
    if !p.stop {
      var q := Run(p.st, d[p.used..]);
      hide Run;
      assert d[p.used..][q.used..] == d[p.used + q.used..];
    }
  }

  lemma EndedAfterTurn(s: ParserState, d: seq<byte>, out: seq<Message>)
    requires s.Valid() && d != []
    ensures var p := Step(s, d);
            Ended(s, d, out) == if p.stop then Loop(p.st, d[p.used..], out + p.out, true)
                                else Ended(p.st, d[p.used..], out + p.out)
  {
    hide Run, Step, Residue;
    var p := Step(s, d);
    UnfoldRun(s, d);
    ResidueAfterTurn(s, d);
    if !p.stop {
      var q := Run(p.st, d[p.used..]);
      assert (out + p.out) + q.out == out + (p.out + q.out);
    }
  }

  lemma EndedOnNothing(s: ParserState, out: seq<Message>)
    requires s.Valid()
    ensures Turn(Loop(s, [], out, false)) == Ended(s, [], out) == Loop(s, [], out, true)
  {
    UnfoldRun(s, []);
    assert out + [] == out;
  }

  /** A loop that does not stall ends, in the state and with the messages and the residue of the run. */
  lemma {:induction false} EndsAsRun(s: ParserState, d: seq<byte>, out: seq<Message>) returns (k: nat)
    requires s.Valid() && !Stalls(s, d)
    ensures Turns(Loop(s, d, out, false), k) == Ended(s, d, out)
    decreases |d|
  {
    hide Turns, Turn, Step, Stalls, Ended;
    var l := Loop(s, d, out, false);
    if d == [] {
      EndedOnNothing(s, out);
      SingleTurn(l);
      k := 1;
    } else {
      TurnIsStep(s, d, out);
      EndedAfterTurn(s, d, out);
      var p := Step(s, d);
      if p.stop {
        SingleTurn(l);
        k := 1;
      } else {
        NoStallAhead(s, d);
        var j := EndsAsRun(p.st, d[p.used..], out + p.out);
        UnfoldTurns(l, j);
        k := j + 1;
      }
    }
  }

  lemma SingleTurn(l: Loop)
    requires l.st.Valid()
    ensures Turns(l, 1) == Turn(l)
  {
    hide Turn;
    UnfoldTurns(l, 0);
    UnfoldTurns(Turn(l), 0);
  }

  /** A stalled loop stays stalled. */
  lemma StalledTurn(l: Loop)
    requires l.st.Valid() && !l.ended && Stalls(l.st, l.rest)
    ensures var r := Turn(l); !r.ended && Stalls(r.st, r.rest)
  {
    var n := |l.rest| % TWO_TO_THE_32;
    WholeMultiple(|l.rest|);
    assert Min(l.st.pendingBytes, n) == n;
  }

  lemma WholeMultiple(n: nat)
    ensures (n - n % TWO_TO_THE_32) % TWO_TO_THE_32 == 0
    ensures n >= TWO_TO_THE_32 ==> n - n % TWO_TO_THE_32 >= TWO_TO_THE_32
  {}

  lemma {:induction false} StallsForEver(l: Loop, k: nat)
    requires l.st.Valid() && !l.ended && Stalls(l.st, l.rest)
    ensures !Turns(l, k).ended
    decreases k
  {
    hide Turn, Stalls;
    if k > 0 {
      StalledTurn(l);
      StallsForEver(Turn(l), k - 1);
    }
  }

  /** For every input and state: the loop ends if and only if the call does not stall, and it ends as the run does. */
  lemma EndsIff(s: ParserState, d: seq<byte>)
    requires s.Valid()
    ensures (exists k :: Turns(Start(s, d), k).ended) <==> !Stalls(s, d)
    ensures !Stalls(s, d) ==> exists k :: Turns(Start(s, d), k) == Ended(s, d, [])
  {
    hide Turns, Stalls, Run;
    if Stalls(s, d) {
      forall k: nat ensures !Turns(Start(s, d), k).ended {
        StallsForEver(Start(s, d), k);
      }
    } else {
      var k := EndsAsRun(s, d, []);
      assert Turns(Start(s, d), k) == Ended(s, d, []);
    }
  }

  /** Some call does stall: a byte pending, and 4 GB of input. */
  lemma SomeCallStalls(d: seq<byte>)
    requires |d| == TWO_TO_THE_32
    ensures Stalls(Run(FRESH_PARSER, HALF_A_CHUNK).st, d)
  {
    AbortBreaksHalfReadChunk();
  }
}
