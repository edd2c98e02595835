/** Which values come back from the wire: the exact condition, over the whole value and every value within it. */
module Amf0Limits {
  import opened Bytes
  import opened Amf0
  import opened Amf0RoundTrip

  /** Decoding the encoding gives the normal form and takes exactly the encoding's bytes, whatever follows. */
  ghost predicate ComesBack(v: Value, depth: nat) {
    forall rest: seq<byte>, refs: nat ::
      DecodeValue(Encode(v) + rest, depth, refs) == Ok(Norm(v), |Encode(v)|, refs + References(v))
  }

  /** So do all the values within it. */
  ghost predicate EveryPartComesBack(v: Value, depth: nat)
    decreases v
  {
    ComesBack(v, depth)
    && match v
       case Object(props) => EveryPropComesBack(props, depth)
       case EcmaArray(props) => EveryPropComesBack(props, depth)
       case StrictArray(elems) => EveryElemComesBack(elems, depth)
       case Array(elems) => EveryElemComesBack(elems, depth)
       case _ => true
  }

  ghost predicate EveryPropComesBack(props: seq<Property>, depth: nat)
    decreases props
  {
    props == [] || (EveryPartComesBack(props[0].value, depth + 1) && EveryPropComesBack(props[1..], depth))
  }

  ghost predicate EveryElemComesBack(elems: seq<Value>, depth: nat)
    decreases elems
  {
    elems == [] || (EveryPartComesBack(elems[0], depth + 1) && EveryElemComesBack(elems[1..], depth))
  }

  lemma FittingComesBack(v: Value, depth: nat)
    requires Fits(v, depth)
    ensures ComesBack(v, depth)
  {
    hide Encode, DecodeValue, Norm;
    forall rest: seq<byte>, refs: nat
      ensures DecodeValue(Encode(v) + rest, depth, refs) == Ok(Norm(v), |Encode(v)|, refs + References(v))
    {
      ValueReadsBack(v, rest, depth, refs);
    }
  }

  lemma {:induction false} FittingPartsComeBack(v: Value, depth: nat)
    requires Fits(v, depth)
    ensures EveryPartComesBack(v, depth)
    decreases v
  {
    FittingComesBack(v, depth);
    hide ComesBack;
    match v
    case Object(props) => FittingPropsComeBack(props, depth);
    case EcmaArray(props) => FittingPropsComeBack(props, depth);
    case StrictArray(elems) => FittingElemsComeBack(elems, depth);
    case Array(elems) => FittingElemsComeBack(elems, depth);
    case _ =>
  }

  lemma {:induction false} FittingPropsComeBack(props: seq<Property>, depth: nat)
    requires EncodableProps(props, STRING_LIMIT) && PropsFit(props) && depth + PropsDepth(props) <= MAX_NESTING_DEPTH
    ensures EveryPropComesBack(props, depth)
    decreases props
  {
    hide EveryPartComesBack, Encodable, KeysFit, Depth;
    if props != [] {
      FittingPartsComeBack(props[0].value, depth + 1);
      FittingPropsComeBack(props[1..], depth);
    }
  }

  lemma {:induction false} FittingElemsComeBack(elems: seq<Value>, depth: nat)
    requires EncodableElems(elems, STRING_LIMIT) && ElemsFit(elems) && depth + ElemsDepth(elems) <= MAX_NESTING_DEPTH
    ensures EveryElemComesBack(elems, depth)
    decreases elems
  {
    hide EveryPartComesBack, Encodable, KeysFit, Depth;
    if elems != [] {
      FittingPartsComeBack(elems[0], depth + 1);
      FittingElemsComeBack(elems[1..], depth);
    }
  }

  /** A long string's byte count is taken modulo 2^32, so from the limit on it is not the string's own. */
  lemma OverlongStringIsMiscounted(s: seq<byte>, depth: nat)
    requires |s| >= STRING_LIMIT
    ensures !ComesBack(String(s), depth)
  {
    hide FromBigEndian4, BigEndian4;
    var d := EncodeString(s) + [];
    if depth <= MAX_NESTING_DEPTH {
      DecodesByMarker(d, depth, 0);
      var r := DecodeLongString(d[1..], 0);
      assert r.Ok? ==> r.used <= TWO_TO_THE_32 < |EncodeString(s)|;
    }
    assert DecodeValue(Encode(String(s)) + [], depth, 0) != Ok(String(s), |EncodeString(s)|, 0);
  }

  /** What comes back was read by the decoder, so it has fields that fit. */
  lemma ReturnedHasKeysThatFit(v: Value, depth: nat)
    requires ComesBack(v, depth)
    ensures depth <= MAX_NESTING_DEPTH && KeysFit(v) && Encodable(Norm(v), TWO_TO_THE_32)
  {
    hide Encode, DecodeValue, Norm, References;
    var r := DecodeValue(Encode(v) + [], depth, 0);
    assert r == Ok(Norm(v), |Encode(v)|, References(v));
    DecodedIsCanonical(Encode(v) + [], depth, 0, TWO_TO_THE_32);
    NormKeepsFit(v);
  }

  lemma {:induction false} ReturnedPartsFit(v: Value, depth: nat)
    requires Ordered(v) && EveryPartComesBack(v, depth)
    ensures Fits(v, depth)
    decreases v
  {
    ReturnedHasKeysThatFit(v, depth);
    hide ComesBack;
    match v
    case String(s) => if |s| >= STRING_LIMIT { OverlongStringIsMiscounted(s, depth); }
    case Object(props) => ReturnedPropsFit(props, depth);
    case EcmaArray(props) => ReturnedPropsFit(props, depth);
    case StrictArray(elems) => ReturnedElemsFit(elems, depth);
    case Array(elems) => ReturnedElemsFit(elems, depth);
    case _ =>
  }

  lemma {:induction false} ReturnedPropsFit(props: seq<Property>, depth: nat)
    requires PropsOrdered(props) && EveryPropComesBack(props, depth) && depth <= MAX_NESTING_DEPTH
    ensures EncodableProps(props, STRING_LIMIT) && depth + PropsDepth(props) <= MAX_NESTING_DEPTH
    decreases props
  {
    hide EveryPartComesBack, Encodable, KeysFit, Depth, Ordered;
    if props != [] {
      ReturnedPartsFit(props[0].value, depth + 1);
      ReturnedPropsFit(props[1..], depth);
    }
  }

  lemma {:induction false} ReturnedElemsFit(elems: seq<Value>, depth: nat)
    requires ElemsOrdered(elems) && EveryElemComesBack(elems, depth) && depth <= MAX_NESTING_DEPTH
    ensures EncodableElems(elems, STRING_LIMIT) && depth + ElemsDepth(elems) <= MAX_NESTING_DEPTH
    decreases elems
  {
    hide EveryPartComesBack, Encodable, KeysFit, Depth, Ordered;
    if elems != [] {
      ReturnedPartsFit(elems[0], depth + 1);
      ReturnedElemsFit(elems[1..], depth);
    }
  }

  /**
   A value and every value within it come back if and only if keys fit 16 bits, counts 32 bits, strings stay
   below 2^32 - 4 bytes, and the nesting below the limit. Nothing is asked of the value but that its property
   maps are ordered, as maps are.
   */
  lemma EveryPartIff(v: Value, depth: nat)
    requires Ordered(v)
    ensures EveryPartComesBack(v, depth) <==> Fits(v, depth)
  {
    hide EveryPartComesBack, Fits;
    if Fits(v, depth) {
      FittingPartsComeBack(v, depth);
    }
    if EveryPartComesBack(v, depth) {
      ReturnedPartsFit(v, depth);
    }
  }

  // ----- why every part: a whole can come back although a part does not

  function Zeros(n: nat): (s: seq<byte>)
    ensures |s| == n
  {
    seq(n, _ => 0)
  }

  const SKIPPED: nat := STRING_LIMIT - 65538

  /** A string at the limit that, read as properties, is the rest of a key and one more long string. */
  function Overlong(): (s: seq<byte>)
    ensures |s| == STRING_LIMIT
  {
    Zeros(65533) + EncodeString(Zeros(SKIPPED))
  }

  /** The key that the length field of the overlong string and its first bytes spell. */
  function SpelledKey(): (k: seq<byte>)
    ensures |k| == 65535
  {
    [0xFF, 0xFC] + Zeros(65533)
  }

  function Resynchronizing(): seq<Property> {
    [Property([], String(Overlong())), Property(SpelledKey(), Null)]
  }

  /** The three properties that are read, in order, and the end behind them. */
  lemma ReadsThree(end: seq<byte>, depth: nat, refs: nat)
    requires depth < MAX_NESTING_DEPTH
    ensures var props := Resynchronizing();
            DecodeProps(EncodeProps(props) + ([0, 0, OBJECT_END_MARKER] + end), [], depth, refs)
              == PropsOk(props, |EncodeProps(props)| + 3, refs)
  {
    hide Overlong, SpelledKey, DecodeProps, DecodeValue, EncodeProp, Put, Zeros;
    var props := Resynchronizing();
    var last := [0, 0, OBJECT_END_MARKER] + end;
    var tail := EncodeProp(props[1]) + last;
    var d := EncodeProp(props[0]) + tail;
    assert EncodeProps(props) == EncodeProp(props[0]) + EncodeProp(props[1]) by {
      assert props[1..] == [props[1]] && props[1..][1..] == [];
    }
    assert EncodeProps(props) + last == d;
    var acc1 := [Property([], String(Overlong()))];
    var acc2 := acc1 + [Property(SpelledKey(), String(Zeros(SKIPPED)))];
    FirstRead(tail, depth, refs);
    SecondRead(tail, depth, refs);
    OnePropReads(props[1], last, acc2, depth, refs);
    NullReads(last, depth + 1, refs);
    PutReplaces();
    LastProp(last, props, depth, refs);
    LayoutLengths();
  }

  lemma NullReads(rest: seq<byte>, depth: nat, refs: nat)
    requires depth <= MAX_NESTING_DEPTH
    ensures Encode(Null) == [NULL_MARKER] && DecodeValue(Encode(Null) + rest, depth, refs) == Ok(Null, 1, refs)
  {}

  lemma PutReplaces()
    ensures var acc1 := [Property([], String(Overlong()))];
            var acc2 := acc1 + [Property(SpelledKey(), String(Zeros(SKIPPED)))];
            && Put([], [], String(Overlong())) == acc1
            && Put(acc1, SpelledKey(), String(Zeros(SKIPPED))) == acc2
            && Put(acc2, SpelledKey(), Null) == Resynchronizing()
  {
    hide Overlong, SpelledKey, Zeros;
    LessIrreflexive(SpelledKey());
    var acc1 := [Property([], String(Overlong()))];
    var acc2 := acc1 + [Property(SpelledKey(), String(Zeros(SKIPPED)))];
    assert |SpelledKey()| == 65535;
    assert acc1[1..] == [] && acc2[1..] == [Property(SpelledKey(), String(Zeros(SKIPPED)))] && acc2[1..][1..] == [];
    assert acc2[0] == acc1[0];
  }

  lemma LayoutLengths()
    ensures |EncodeProp(Resynchronizing()[0])| == 7 + STRING_LIMIT && |EncodeProp(Resynchronizing()[1])| == 65538
  {
    hide Overlong, SpelledKey, Zeros;
  }

  /** The overlong string is read in full, but only its marker counted. */
  lemma FirstRead(tail: seq<byte>, depth: nat, refs: nat)
    requires depth < MAX_NESTING_DEPTH
    ensures DecodeProps(EncodeProp(Resynchronizing()[0]) + tail, [], depth, refs)
         == Later(3, DecodeProps([0xFF, 0xFF, 0xFF, 0xFC] + Overlong() + tail, Put([], [], String(Overlong())), depth, refs))
  {
    hide Overlong, SpelledKey, DecodeProps, Put, Zeros;
    var d := EncodeProp(Resynchronizing()[0]) + tail;
    var field: seq<byte> := [0xFF, 0xFF, 0xFF, 0xFC];
    assert BigEndian4(STRING_LIMIT) == field;
    assert d == [0, 0, LONG_STRING_MARKER] + (field + Overlong() + tail);
    assert d[0..2] == [] + d[0..2] && d[2..2 + 0] == [];
    var e := d[2..];
    assert e == [LONG_STRING_MARKER] + (field + Overlong() + tail) && e[1..] == field + Overlong() + tail;
    DecodesByMarker(e, depth + 1, refs);
    assert FromBigEndian4(e[1..]) == STRING_LIMIT;
    assert e[1..][4..4 + STRING_LIMIT] == Overlong();
    assert DecodeLongString(e[1..], refs) == Ok(String(Overlong()), 1, refs);
    hide DecodeValue;
    OneProp(d, [], depth, refs);
    assert d[3..] == field + Overlong() + tail;
  }

  /** Its length field and content are then read as a key and a string that skips to its end. */
  lemma SecondRead(tail: seq<byte>, depth: nat, refs: nat)
    requires depth < MAX_NESTING_DEPTH
    ensures var acc := [Property([], String(Overlong()))];
            DecodeProps([0xFF, 0xFF, 0xFF, 0xFC] + Overlong() + tail, acc, depth, refs)
              == Later(STRING_LIMIT + 4, DecodeProps(tail, Put(acc, SpelledKey(), String(Zeros(SKIPPED))), depth, refs))
  {
    hide DecodeProps, DecodeValue, Put, Zeros, EncodeString;
    var acc := [Property([], String(Overlong()))];
    var d := [0xFF, 0xFF, 0xFF, 0xFC] + Overlong() + tail;
    var t := Zeros(SKIPPED);
    SkippedLength();
    assert d == [0xFF, 0xFF] + (SpelledKey() + (EncodeString(t) + tail));
    assert d[2..2 + 65535] == SpelledKey() && d[2 + 65535..] == EncodeString(t) + tail;
    StringReadsBack(t, tail, depth + 1, refs);
    OneProp(d, acc, depth, refs);
    assert d[2 + 65535 + |EncodeString(t)|..] == tail;
  }

  lemma SkippedLength()
    ensures |EncodeString(Zeros(SKIPPED))| == SKIPPED + 5
  {
    hide Zeros;
  }

  /**
   An object with a string at the limit can come back whole, the miscounted string read over by luck of its
   contents. So for a value as a whole the bound on strings suffices but is not necessary; for every part it is both.
   */
  lemma OverlongCanComeBack(depth: nat)
    requires depth < MAX_NESTING_DEPTH
    ensures var v := Object(Resynchronizing());
            Ordered(v) && KeysFit(v) && !Encodable(v, STRING_LIMIT) && ComesBack(v, depth) && !EveryPartComesBack(v, depth)
  {
    var props := Resynchronizing();
    var v := Object(props);
    ResynchronizingShape();
    hide Resynchronizing, Encode, EncodeProps, DecodeProps, NormProps, Norm, PropsReferences, Encodable, KeysFit, Ordered;
    forall rest: seq<byte>, refs: nat
      ensures DecodeValue(Encode(v) + rest, depth, refs) == Ok(Norm(v), |Encode(v)|, refs + References(v))
    {
      hide DecodeValue;
      ReadsThree(rest, depth, refs);
      DecodesByMarker(Encode(v) + rest, depth, refs);
      assert (Encode(v) + rest)[1..] == EncodeProps(props) + ([0, 0, OBJECT_END_MARKER] + rest);
    }
    EveryPartIff(v, depth);
  }

  lemma ResynchronizingShape()
    ensures var props := Resynchronizing(); var v := Object(props);
            && Ordered(v) && KeysFit(v) && !Encodable(v, STRING_LIMIT)
            && Norm(v) == v && References(v) == 1
            && Encode(v) == [OBJECT_MARKER] + EncodeProps(props) + [0, 0, OBJECT_END_MARKER]
  {
    hide Overlong, SpelledKey, EncodeProps;
    var props := Resynchronizing();
    assert props[1..] == [props[1]] && props[1..][1..] == [];
  }
}
