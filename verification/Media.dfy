/** Media frames, and sums and time spans of frame queues. */
module Media {
  import opened Bytes

  datatype MediaType = Audio | Video | Data

  datatype Frame = Frame(kind: MediaType, timestamp: uint32, data: seq<byte>, isKeyframe: bool)

  predicate IsVideoKey(f: Frame) {
    f.kind == Video && f.isKeyframe
  }

  function Size(frames: seq<Frame>): nat {
    if frames == [] then 0 else |frames[0].data| + Size(frames[1..])
  }

  lemma {:induction false} SizeAppend(a: seq<Frame>, b: seq<Frame>)
    ensures Size(a + b) == Size(a) + Size(b)
  {
    if a == [] {
      assert a + b == b;
    } else {
      assert (a + b)[1..] == a[1..] + b;
      SizeAppend(a[1..], b);
    }
  }

  lemma SizeOne(f: Frame)
    ensures Size([f]) == |f.data|
  {
    assert [f][1..] == [];
  }

  /** The sources' running minimum starts at the largest 32-bit value, the running maximum at 0. */
  function MinTimestamp(frames: seq<Frame>): uint32 {
    if frames == [] then 0xFFFF_FFFF else Min(frames[0].timestamp, MinTimestamp(frames[1..]))
  }

  function MaxTimestamp(frames: seq<Frame>): uint32 {
    if frames == [] then 0 else Max(frames[0].timestamp, MaxTimestamp(frames[1..]))
  }

  /** The time between the earliest and the latest frame. */
  function Span(frames: seq<Frame>): nat {
    if frames == [] || MaxTimestamp(frames) < MinTimestamp(frames) then 0
    else MaxTimestamp(frames) - MinTimestamp(frames)
  }

  /** Minimum and maximum are bounds, and some frames attain them. */
  lemma {:induction false} TimestampBounds(frames: seq<Frame>)
    ensures forall f :: f in frames ==> MinTimestamp(frames) <= f.timestamp <= MaxTimestamp(frames)
    ensures frames != [] ==> exists f :: f in frames && f.timestamp == MinTimestamp(frames)
    ensures frames != [] ==> exists f :: f in frames && f.timestamp == MaxTimestamp(frames)
  {
    if frames != [] {
      TimestampBounds(frames[1..]);
      assert frames[0] in frames;
      assert frames[1..] == [] ==> MinTimestamp(frames[1..]) == 0xFFFF_FFFF && MaxTimestamp(frames[1..]) == 0;
      if MinTimestamp(frames) != frames[0].timestamp {
        assert frames[1..] != [];
        var f :| f in frames[1..] && f.timestamp == MinTimestamp(frames[1..]);
        assert f in frames;
      }
      if MaxTimestamp(frames) != frames[0].timestamp {
        assert frames[1..] != [];
        var f :| f in frames[1..] && f.timestamp == MaxTimestamp(frames[1..]);
        assert f in frames;
      }
    }
  }

  /** Some two frames are further apart in time than the limit, which all frames are if it is negative. */
  ghost predicate Apart(frames: seq<Frame>, limit: int) {
    limit < 0 || exists f, g :: f in frames && g in frames && g.timestamp - f.timestamp > limit
  }

  lemma SpanIsApart(frames: seq<Frame>, limit: int)
    ensures Span(frames) > limit <==> Apart(frames, limit)
  {
    hide MinTimestamp, MaxTimestamp;
    TimestampBounds(frames);
    if limit >= 0 && Span(frames) > limit {
      var f :| f in frames && f.timestamp == MinTimestamp(frames);
      var g :| g in frames && g.timestamp == MaxTimestamp(frames);
      assert g.timestamp - f.timestamp > limit;
    }
  }

  lemma ApartGrows(frames: seq<Frame>, f: Frame, limit: int)
    ensures Apart(frames, limit) ==> Apart(frames + [f], limit)
  {
    if limit >= 0 && Apart(frames, limit) {
      var a, b :| a in frames && b in frames && b.timestamp - a.timestamp > limit;
      assert a in frames + [f] && b in frames + [f];
    }
  }

  method ComputeSpan(frames: seq<Frame>) returns (minTs: uint32, maxTs: uint32, span: nat)
    ensures minTs == MinTimestamp(frames) && maxTs == MaxTimestamp(frames) && span == Span(frames)
  {
    minTs, maxTs := 0xFFFF_FFFF, 0;
    var i: nat := 0;
    assert frames[0..] == frames;
    while i < |frames|
      invariant i <= |frames|
      invariant Min(minTs, MinTimestamp(frames[i..])) == MinTimestamp(frames)
      invariant Max(maxTs, MaxTimestamp(frames[i..])) == MaxTimestamp(frames)
    {
      assert frames[i..][1..] == frames[i + 1..];
      if frames[i].timestamp < minTs {
        minTs := frames[i].timestamp;
      }
      if frames[i].timestamp > maxTs {
        maxTs := frames[i].timestamp;
      }
      i := i + 1;
    }
    assert frames[i..] == [];
    span := if frames != [] && maxTs >= minTs then maxTs - minTs else 0;
  }
}
