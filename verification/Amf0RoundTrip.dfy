/** Decoding what was encoded, and encoding what was decoded. */
module Amf0RoundTrip {
  import opened Bytes
  import opened Amf0

  // ----- decoding an encoding

  /** `r` is the value `v` read back in full, or the refusal of a value that nests too deep. */
  predicate ReadsBack(r: Decoded, v: Value, depth: nat, refs: nat) {
    if depth + Depth(v) <= MAX_NESTING_DEPTH
    then r == Ok(Norm(v), |Encode(v)|, refs + References(v))
    else r.Err? && r.code == NestingTooDeep
  }

  lemma StringReadsBack(s: seq<byte>, rest: seq<byte>, depth: nat, refs: nat)
    requires |s| < STRING_LIMIT && depth <= MAX_NESTING_DEPTH
    ensures DecodeValue(EncodeString(s) + rest, depth, refs) == Ok(String(s), |EncodeString(s)|, refs)
  {
    hide DecodeValue, DecodeString, DecodeLongString, EncodeString;
    var d := EncodeString(s) + rest;
    StringLayout(s, rest);
    DecodesByMarker(d, depth, refs);
    if |s| > 65535 {
      LongStringReads(s, rest, refs);
    } else {
      ShortStringReads(s, rest, refs);
    }
  }

  lemma LengthAndString(marker: byte, length: seq<byte>, s: seq<byte>, rest: seq<byte>)
    ensures var d := [marker] + length + s + rest;
            |[marker] + length + s| == 1 + |length| + |s| && d[0] == marker && d[1..] == length + (s + rest)
  {}

  lemma StringLayout(s: seq<byte>, rest: seq<byte>)
    requires |s| < STRING_LIMIT
    ensures var b, d := EncodeString(s), EncodeString(s) + rest;
            if |s| > 65535 then |b| == 5 + |s| && d[0] == LONG_STRING_MARKER && d[1..] == BigEndian4(|s|) + (s + rest)
            else |b| == 3 + |s| && d[0] == STRING_MARKER && d[1..] == BigEndian2(|s|) + (s + rest)
  {
    hide BigEndian2, BigEndian4;
    LengthAndString(LONG_STRING_MARKER, BigEndian4(|s|), s, rest);
    LengthAndString(STRING_MARKER, BigEndian2(|s|), s, rest);
  }

  lemma ShortStringReads(s: seq<byte>, rest: seq<byte>, refs: nat)
    requires |s| < 0x10000
    ensures DecodeString(BigEndian2(|s|) + (s + rest), refs) == Ok(String(s), |s| + 3, refs)
  {
    hide FromBigEndian2, BigEndian2;
    BigEndian2Inverse(|s|, s + rest);
    assert (BigEndian2(|s|) + (s + rest))[2..2 + |s|] == s;
  }

  lemma LongStringReads(s: seq<byte>, rest: seq<byte>, refs: nat)
    requires |s| < STRING_LIMIT
    ensures DecodeLongString(BigEndian4(|s|) + (s + rest), refs) == Ok(String(s), |s| + 5, refs)
  {
    hide FromBigEndian4, BigEndian4;
    BigEndian4Inverse(|s|, s + rest);
    assert (BigEndian4(|s|) + (s + rest))[4..4 + |s|] == s;
  }

  /** The markers the encoder writes in front of strings, objects and arrays. */
  lemma DecodesByMarker(d: seq<byte>, depth: nat, refs: nat)
    requires depth <= MAX_NESTING_DEPTH && d != []
    ensures d[0] == STRING_MARKER ==> DecodeValue(d, depth, refs) == DecodeString(d[1..], refs)
    ensures d[0] == LONG_STRING_MARKER ==> DecodeValue(d, depth, refs) == DecodeLongString(d[1..], refs)
    ensures d[0] == OBJECT_MARKER ==> DecodeValue(d, depth, refs) == ObjectFrom(DecodeProps(d[1..], [], depth, refs))
    ensures d[0] == STRICT_ARRAY_MARKER && |d| >= 5 ==>
              DecodeValue(d, depth, refs)
                == StrictArrayFrom(DecodeElems(d[1..][4..], FromBigEndian4(d[1..]), [], depth, refs))
  {
    hide DecodeProps, DecodeElems, DecodeString, DecodeLongString, FromBigEndian4;
  }

  lemma {:induction false} ValueReadsBack(v: Value, rest: seq<byte>, depth: nat, refs: nat)
    requires Encodable(v, STRING_LIMIT) && KeysFit(v)
    ensures ReadsBack(DecodeValue(Encode(v) + rest, depth, refs), v, depth, refs)
    decreases v
  {
    if depth <= MAX_NESTING_DEPTH {
      var d := Encode(v) + rest;
      match v
      case Number(bits) =>
        hide FromBigEndian8, BigEndian8;
        assert d[1..] == BigEndian8(bits) + rest;
        BigEndian8Inverse(bits, rest);
      case String(s) => StringReadsBack(s, rest, depth, refs);
      case Object(props) => PropsReadBack(props, [], rest, depth, refs); ObjectReadsBack(v, props, rest, depth, refs);
      case EcmaArray(props) => PropsReadBack(props, [], rest, depth, refs); ObjectReadsBack(v, props, rest, depth, refs);
      case StrictArray(elems) => ElemsReadBack(elems, [], rest, depth, refs); ArrayReadsBack(v, elems, rest, depth, refs);
      case Array(elems) => ElemsReadBack(elems, [], rest, depth, refs); ArrayReadsBack(v, elems, rest, depth, refs);
      case _ =>
    }
  }

  predicate PropsBack(r: PropsDecoded, props: seq<Property>, acc: seq<Property>, depth: nat, refs: nat) {
    if depth + PropsDepth(props) <= MAX_NESTING_DEPTH
    then r == PropsOk(acc + NormProps(props), |EncodeProps(props)| + 3, refs + PropsReferences(props))
    else r.PropsErr? && r.code == NestingTooDeep
  }

  predicate ElemsBack(r: ElemsDecoded, elems: seq<Value>, acc: seq<Value>, depth: nat, refs: nat) {
    if depth + ElemsDepth(elems) <= MAX_NESTING_DEPTH
    then r == ElemsOk(acc + NormElems(elems), |EncodeElems(elems)|, refs + ElemsReferences(elems))
    else r.ElemsErr? && r.code == NestingTooDeep
  }

  lemma ObjectLayout(v: Value, props: seq<Property>, rest: seq<byte>)
    requires v == Object(props) || v == EcmaArray(props)
    ensures var d := Encode(v) + rest;
            |Encode(v)| == 4 + |EncodeProps(props)| && d[0] == OBJECT_MARKER
            && d[1..] == EncodeProps(props) + ([0, 0, OBJECT_END_MARKER] + rest)
  {
    hide EncodeProps;
  }

  lemma ObjectReadsBack(v: Value, props: seq<Property>, rest: seq<byte>, depth: nat, refs: nat)
    requires v == Object(props) || v == EcmaArray(props)
    requires depth <= MAX_NESTING_DEPTH
    requires PropsBack(DecodeProps(EncodeProps(props) + ([0, 0, OBJECT_END_MARKER] + rest), [], depth, refs), props, [], depth, refs)
    ensures ReadsBack(DecodeValue(Encode(v) + rest, depth, refs), v, depth, refs)
  {
    hide DecodeValue, DecodeProps, Encode, EncodeProps, NormProps;
    ObjectLayout(v, props, rest);
    DecodesByMarker(Encode(v) + rest, depth, refs);
    assert [] + NormProps(props) == NormProps(props);
  }

  lemma ArrayLayout(v: Value, elems: seq<Value>, rest: seq<byte>)
    requires (v == StrictArray(elems) || v == Array(elems)) && |elems| < 0x1_0000_0000
    ensures var d := Encode(v) + rest;
            |Encode(v)| == 5 + |EncodeElems(elems)| && d[0] == STRICT_ARRAY_MARKER
            && d[1..] == BigEndian4(|elems|) + (EncodeElems(elems) + rest) && d[1..][4..] == EncodeElems(elems) + rest
  {
    hide EncodeElems, BigEndian4;
  }

  lemma ArrayReadsBack(v: Value, elems: seq<Value>, rest: seq<byte>, depth: nat, refs: nat)
    requires v == StrictArray(elems) || v == Array(elems)
    requires depth <= MAX_NESTING_DEPTH && |elems| < 0x1_0000_0000
    requires ElemsBack(DecodeElems(EncodeElems(elems) + rest, |elems|, [], depth, refs), elems, [], depth, refs)
    ensures ReadsBack(DecodeValue(Encode(v) + rest, depth, refs), v, depth, refs)
  {
    hide DecodeValue, DecodeElems, Encode, EncodeElems, NormElems, BigEndian4, FromBigEndian4;
    ArrayLayout(v, elems, rest);
    DecodesByMarker(Encode(v) + rest, depth, refs);
    BigEndian4Inverse(|elems|, EncodeElems(elems) + rest);
    assert [] + NormElems(elems) == NormElems(elems);
  }

  function Later(n: nat, r: PropsDecoded): PropsDecoded {
    match r
    case PropsErr(code, refs) => r
    case PropsOk(props, used, refs) => PropsOk(props, n + used, refs)
  }

  /** One turn of the property loop on an encoded property. */
  lemma OnePropReads(p: Property, later: seq<byte>, acc: seq<Property>, depth: nat, refs: nat)
    requires |p.key| < 0x10000
    ensures var r := DecodeValue(Encode(p.value) + later, depth + 1, refs);
            var d := EncodeProp(p) + later;
            && (r.Err? ==> DecodeProps(d, acc, depth, refs) == PropsErr(r.code, r.refs))
            && (r.Ok? && r.used == |Encode(p.value)| ==>
                  DecodeProps(d, acc, depth, refs)
                    == Later(|EncodeProp(p)|, DecodeProps(later, Put(acc, p.key, r.value), depth, r.refs)))
  {
    hide DecodeValue, Encode, EncodeProp, FromBigEndian2, Put;
    PropLayout(p, EncodeProp(p) + later, later);
  }

  /** All keys of `acc` come before all keys of `props`. */
  predicate Before(acc: seq<Property>, props: seq<Property>) {
    forall p :: p in props ==> Above(acc, p.key)
  }

  lemma BeforeStep(acc: seq<Property>, props: seq<Property>, value: Value)
    requires props != [] && Sorted(props) && Before(acc, props)
    ensures Put(acc, props[0].key, value) == acc + [Property(props[0].key, value)]
    ensures Before(acc + [Property(props[0].key, value)], props[1..])
  {
    hide Less;
    assert props[0] in props;
    PutLast(acc, props[0].key, value);
    forall q | q in props[1..] ensures Above(acc + [Property(props[0].key, value)], q.key) {
      assert q in props;
    }
  }

  lemma PropsStep(props: seq<Property>, acc: seq<Property>, end: seq<byte>, depth: nat, refs: nat)
    requires props != [] && |props[0].key| < 0x10000 && Sorted(props) && Before(acc, props)
    requires ReadsBack(DecodeValue(Encode(props[0].value) + (EncodeProps(props[1..]) + end), depth + 1, refs), props[0].value, depth + 1, refs)
    requires depth + 1 + Depth(props[0].value) <= MAX_NESTING_DEPTH ==>
               var acc1 := acc + [Property(props[0].key, Norm(props[0].value))];
               var refs1 := refs + References(props[0].value);
               PropsBack(DecodeProps(EncodeProps(props[1..]) + end, acc1, depth, refs1), props[1..], acc1, depth, refs1)
    ensures PropsBack(DecodeProps(EncodeProps(props) + end, acc, depth, refs), props, acc, depth, refs)
  {
    hide DecodeValue, DecodeProps, Encode, EncodeProp, Norm, References, Depth, Before, Put, Sorted,
      EncodeProps, NormProps, PropsDepth, PropsReferences;
    UnfoldProps(props);
    var later := EncodeProps(props[1..]) + end;
    assert EncodeProps(props) + end == EncodeProp(props[0]) + later;
    OnePropReads(props[0], later, acc, depth, refs);
    BeforeStep(acc, props, Norm(props[0].value));
    assert acc + [Property(props[0].key, Norm(props[0].value))] + NormProps(props[1..]) == acc + NormProps(props);
  }

  lemma FirstOfProps(props: seq<Property>)
    requires props != [] && Sorted(props) && EncodableProps(props, STRING_LIMIT) && PropsFit(props)
    ensures Encodable(props[0].value, STRING_LIMIT) && KeysFit(props[0].value) && |props[0].key| < 0x10000
    ensures Sorted(props[1..]) && EncodableProps(props[1..], STRING_LIMIT) && PropsFit(props[1..])
  {
    hide Encodable, KeysFit, Below;
  }

  lemma {:induction false} PropsReadBack(props: seq<Property>, acc: seq<Property>, rest: seq<byte>, depth: nat, refs: nat)
    requires Sorted(props) && EncodableProps(props, STRING_LIMIT) && PropsFit(props) && depth <= MAX_NESTING_DEPTH
    requires Before(acc, props)
    ensures PropsBack(DecodeProps(EncodeProps(props) + ([0, 0, OBJECT_END_MARKER] + rest), acc, depth, refs), props, acc, depth, refs)
    decreases props
  {
    hide DecodeValue, Encode, Norm, References, Depth, Encodable, KeysFit, Before, Below, Put, DecodeProps, EncodeProps, PropsBack,
      ReadsBack, Sorted, EncodableProps, PropsFit;
    if props == [] {
      NoPropsReadBack(acc, rest, depth, refs);
    } else {
      var end: seq<byte> := [0, 0, OBJECT_END_MARKER] + rest;
      FirstOfProps(props);
      ValueReadsBack(props[0].value, EncodeProps(props[1..]) + end, depth + 1, refs);
      BeforeStep(acc, props, Norm(props[0].value));
      PropsReadBack(props[1..], acc + [Property(props[0].key, Norm(props[0].value))], rest, depth, refs + References(props[0].value));
      PropsStep(props, acc, end, depth, refs);
    }
  }

  lemma NoPropsReadBack(acc: seq<Property>, rest: seq<byte>, depth: nat, refs: nat)
    requires depth <= MAX_NESTING_DEPTH
    ensures PropsBack(DecodeProps(EncodeProps([]) + ([0, 0, OBJECT_END_MARKER] + rest), acc, depth, refs), [], acc, depth, refs)
  {
    hide DecodeValue, Put;
    var end: seq<byte> := [0, 0, OBJECT_END_MARKER] + rest;
    assert [] + end == end && acc + [] == acc;
  }

  /** How a property's name and value lie at the front of the bytes. */
  lemma PropLayout(p: Property, d: seq<byte>, later: seq<byte>)
    requires |p.key| < 0x10000 && d == EncodeProp(p) + later
    ensures |d| >= 3 && !(d[0] == 0 && d[1] == 0 && d[2] == OBJECT_END_MARKER)
    ensures FromBigEndian2(d) == |p.key| && |d| >= 2 + |p.key| && d[2..2 + |p.key|] == p.key
    ensures d[2 + |p.key|..] == Encode(p.value) + later
    ensures d[2 + |p.key| + |Encode(p.value)|..] == later && |EncodeProp(p)| == 2 + |p.key| + |Encode(p.value)|
  {
    hide Encode, FromBigEndian2, BigEndian2;
    assert d == BigEndian2(|p.key|) + (p.key + Encode(p.value) + later);
    BigEndian2Inverse(|p.key|, p.key + Encode(p.value) + later);
    if |p.key| == 0 {
      assert d[2] == Encode(p.value)[0];
    } else {
      NonzeroPrefix(d);
    }
  }

  lemma NonzeroPrefix(d: seq<byte>)
    requires |d| >= 2 && FromBigEndian2(d) != 0
    ensures d[0] != 0 || d[1] != 0
  {}

  function LaterElems(n: nat, r: ElemsDecoded): ElemsDecoded {
    match r
    case ElemsErr(code, refs) => r
    case ElemsOk(elems, used, refs) => ElemsOk(elems, n + used, refs)
  }

  /** One turn of the element loop on an encoded value. */
  lemma OneElemReads(v: Value, later: seq<byte>, count: nat, acc: seq<Value>, depth: nat, refs: nat)
    requires count > 0
    ensures var r := DecodeValue(Encode(v) + later, depth + 1, refs);
            var d := Encode(v) + later;
            && (r.Err? ==> DecodeElems(d, count, acc, depth, refs) == ElemsErr(r.code, r.refs))
            && (r.Ok? && r.used == |Encode(v)| ==>
                  DecodeElems(d, count, acc, depth, refs)
                    == LaterElems(r.used, DecodeElems(later, count - 1, acc + [r.value], depth, r.refs)))
  {
    hide DecodeValue, Encode;
    assert (Encode(v) + later)[|Encode(v)|..] == later;
  }

  lemma UnfoldElems(elems: seq<Value>)
    requires elems != []
    ensures EncodeElems(elems) == Encode(elems[0]) + EncodeElems(elems[1..])
    ensures NormElems(elems) == [Norm(elems[0])] + NormElems(elems[1..])
    ensures ElemsDepth(elems) == Max(1 + Depth(elems[0]), ElemsDepth(elems[1..]))
    ensures ElemsReferences(elems) == References(elems[0]) + ElemsReferences(elems[1..])
  {
    hide Encode, Norm, Depth, References;
  }

  lemma UnfoldProps(props: seq<Property>)
    requires props != []
    ensures EncodeProps(props) == EncodeProp(props[0]) + EncodeProps(props[1..])
    ensures NormProps(props) == [Property(props[0].key, Norm(props[0].value))] + NormProps(props[1..])
    ensures PropsDepth(props) == Max(1 + Depth(props[0].value), PropsDepth(props[1..]))
    ensures PropsReferences(props) == References(props[0].value) + PropsReferences(props[1..])
  {
    hide EncodeProp, Norm, Depth, References;
  }

  lemma ElemsStep(elems: seq<Value>, acc: seq<Value>, rest: seq<byte>, depth: nat, refs: nat)
    requires elems != []
    requires ReadsBack(DecodeValue(Encode(elems[0]) + (EncodeElems(elems[1..]) + rest), depth + 1, refs), elems[0], depth + 1, refs)
    requires depth + 1 + Depth(elems[0]) <= MAX_NESTING_DEPTH ==>
               var acc1 := acc + [Norm(elems[0])];
               var refs1 := refs + References(elems[0]);
               ElemsBack(DecodeElems(EncodeElems(elems[1..]) + rest, |elems| - 1, acc1, depth, refs1), elems[1..], acc1, depth, refs1)
    ensures ElemsBack(DecodeElems(EncodeElems(elems) + rest, |elems|, acc, depth, refs), elems, acc, depth, refs)
  {
    hide DecodeValue, DecodeElems, Encode, Norm, References, Depth, EncodeElems, NormElems, ElemsDepth, ElemsReferences;
    UnfoldElems(elems);
    var later := EncodeElems(elems[1..]) + rest;
    assert EncodeElems(elems) + rest == Encode(elems[0]) + later;
    OneElemReads(elems[0], later, |elems|, acc, depth, refs);
    assert acc + [Norm(elems[0])] + NormElems(elems[1..]) == acc + NormElems(elems);
  }

  lemma {:induction false} ElemsReadBack(elems: seq<Value>, acc: seq<Value>, rest: seq<byte>, depth: nat, refs: nat)
    requires EncodableElems(elems, STRING_LIMIT) && ElemsFit(elems) && depth <= MAX_NESTING_DEPTH
    ensures ElemsBack(DecodeElems(EncodeElems(elems) + rest, |elems|, acc, depth, refs), elems, acc, depth, refs)
    decreases elems
  {
    hide DecodeValue, Encode, Norm, References, Depth, Encodable, KeysFit;
    if elems == [] {
      assert acc + [] == acc;
    } else {
      hide DecodeElems, EncodeElems, ElemsBack, ReadsBack;
      ValueReadsBack(elems[0], EncodeElems(elems[1..]) + rest, depth + 1, refs);
      ElemsReadBack(elems[1..], acc + [Norm(elems[0])], rest, depth, refs + References(elems[0]));
      ElemsStep(elems, acc, rest, depth, refs);
    }
  }

  // ----- what decoding can produce

  /** Ordered keys, keys and counts that fit their length fields, and strings shorter than `limit`. */
  predicate Canonical(v: Value, limit: nat) {
    Encodable(v, limit) && KeysFit(v)
  }

  /** A decoded string is shorter than its length field can say, and than the bytes it came from. */
  predicate LimitsStrings(limit: nat, d: seq<byte>) {
    |d| <= limit || TWO_TO_THE_32 <= limit
  }

  /** Whatever the bytes, a decoded value is one the encoder can write. */
  lemma {:induction false} DecodedIsCanonical(d: seq<byte>, depth: nat, refs: nat, limit: nat)
    requires LimitsStrings(limit, d)
    ensures var r := DecodeValue(d, depth, refs);
            r.Ok? ==> Canonical(r.value, limit) && depth + Depth(r.value) <= MAX_NESTING_DEPTH
    decreases |d|, 0
  {
    if depth <= MAX_NESTING_DEPTH && d != [] {
      var body := d[1..];
      if d[0] == OBJECT_MARKER {
        DecodedProps(body, [], depth, refs, limit);
        assert DecodeValue(d, depth, refs) == ObjectFrom(DecodeProps(body, [], depth, refs));
      } else if d[0] == ECMA_ARRAY_MARKER && |body| >= 4 {
        DecodedProps(body[4..], [], depth, refs, limit);
      } else if d[0] == STRICT_ARRAY_MARKER && |body| >= 4 {
        DecodedElems(body[4..], FromBigEndian4(body), [], depth, refs, limit);
      }
    }
  }

  predicate CanonicalProps(props: seq<Property>, depth: nat, limit: nat) {
    forall p :: p in props ==> |p.key| < 0x10000 && Canonical(p.value, limit) && depth + 1 + Depth(p.value) <= MAX_NESTING_DEPTH
  }

  predicate CanonicalElems(elems: seq<Value>, depth: nat, limit: nat) {
    forall v :: v in elems ==> Canonical(v, limit) && depth + 1 + Depth(v) <= MAX_NESTING_DEPTH
  }

  lemma {:induction false} AllProps(props: seq<Property>, depth: nat, limit: nat)
    requires CanonicalProps(props, depth, limit) && depth <= MAX_NESTING_DEPTH
    ensures EncodableProps(props, limit) && PropsFit(props) && depth + PropsDepth(props) <= MAX_NESTING_DEPTH
  {
    if props != [] {
      assert props[0] in props;
      AllProps(props[1..], depth, limit);
    }
  }

  lemma {:induction false} AllElems(elems: seq<Value>, depth: nat, limit: nat)
    requires CanonicalElems(elems, depth, limit) && depth <= MAX_NESTING_DEPTH
    ensures EncodableElems(elems, limit) && ElemsFit(elems) && depth + ElemsDepth(elems) <= MAX_NESTING_DEPTH
  {
    if elems != [] {
      assert elems[0] in elems;
      AllElems(elems[1..], depth, limit);
    }
  }

  predicate GoodProps(r: PropsDecoded, depth: nat, limit: nat) {
    r.PropsOk? ==> Sorted(r.props) && EncodableProps(r.props, limit) && PropsFit(r.props)
                   && depth + PropsDepth(r.props) <= MAX_NESTING_DEPTH
  }

  predicate AtEndMarker(d: seq<byte>) {
    |d| >= 3 && d[0] == 0 && d[1] == 0 && d[2] == OBJECT_END_MARKER
  }

  lemma LastProp(d: seq<byte>, acc: seq<Property>, depth: nat, refs: nat)
    requires AtEndMarker(d) || |d| < 2 || |d| < 2 + FromBigEndian2(d)
    ensures DecodeProps(d, acc, depth, refs) == if AtEndMarker(d) then PropsOk(acc, 3, refs) else PropsErr(UnexpectedEnd, refs)
  {
    hide DecodeValue, Put, FromBigEndian2;
  }

  /** One turn of the property loop, on any bytes. */
  lemma OneProp(d: seq<byte>, acc: seq<Property>, depth: nat, refs: nat)
    requires |d| >= 2 && |d| >= 2 + FromBigEndian2(d) && !AtEndMarker(d)
    ensures var n := FromBigEndian2(d);
            var r := DecodeValue(d[2 + n..], depth + 1, refs);
            DecodeProps(d, acc, depth, refs)
              == if r.Err? then PropsErr(r.code, r.refs)
                 else Later(2 + n + r.used, DecodeProps(d[2 + n + r.used..], Put(acc, d[2..2 + n], r.value), depth, r.refs))
  {
    hide DecodeValue, Put, FromBigEndian2;
  }

  lemma PutCanonical(acc: seq<Property>, key: seq<byte>, v: Value, depth: nat, limit: nat)
    requires Sorted(acc) && CanonicalProps(acc, depth, limit)
    requires |key| < 0x10000 && Canonical(v, limit) && depth + 1 + Depth(v) <= MAX_NESTING_DEPTH
    ensures Sorted(Put(acc, key, v)) && CanonicalProps(Put(acc, key, v), depth, limit)
  {
    PutSorted(acc, key, v);
  }

  lemma {:induction false} DecodedProps(d: seq<byte>, acc: seq<Property>, depth: nat, refs: nat, limit: nat)
    requires LimitsStrings(limit, d) && depth <= MAX_NESTING_DEPTH && Sorted(acc) && CanonicalProps(acc, depth, limit)
    ensures GoodProps(DecodeProps(d, acc, depth, refs), depth, limit)
    decreases |d|, 1
  {
    hide DecodeValue, DecodeProps, Put, Less, Sorted, EncodableProps, PropsFit, PropsDepth, CanonicalProps, Canonical, Depth;
    AllProps(acc, depth, limit);
    if AtEndMarker(d) || |d| < 2 || |d| < 2 + FromBigEndian2(d) {
      LastProp(d, acc, depth, refs);
    } else {
      var n := FromBigEndian2(d);
      OneProp(d, acc, depth, refs);
      DecodedIsCanonical(d[2 + n..], depth + 1, refs, limit);
      var r := DecodeValue(d[2 + n..], depth + 1, refs);
      if r.Ok? {
        PutCanonical(acc, d[2..2 + n], r.value, depth, limit);
        DecodedProps(d[2 + n + r.used..], Put(acc, d[2..2 + n], r.value), depth, r.refs, limit);
      }
    }
  }

  lemma {:induction false} DecodedElems(d: seq<byte>, count: nat, acc: seq<Value>, depth: nat, refs: nat, limit: nat)
    requires LimitsStrings(limit, d) && depth <= MAX_NESTING_DEPTH && CanonicalElems(acc, depth, limit)
    ensures var r := DecodeElems(d, count, acc, depth, refs);
            r.ElemsOk? ==> |r.elems| <= |acc| + count && EncodableElems(r.elems, limit) && ElemsFit(r.elems)
                           && depth + ElemsDepth(r.elems) <= MAX_NESTING_DEPTH
    decreases |d|, 1
  {
    hide DecodeValue;
    AllElems(acc, depth, limit);
    if count > 0 && d != [] {
      DecodedIsCanonical(d, depth + 1, refs, limit);
      var r := DecodeValue(d, depth + 1, refs);
      if r.Ok? {
        DecodedElems(d[r.used..], count - 1, acc + [r.value], depth, r.refs, limit);
      }
    }
  }

  // ----- the round trips

  lemma {:induction false} NormKeepsFit(v: Value)
    ensures KeysFit(Norm(v)) <==> KeysFit(v)
    decreases v
  {
    match v
    case Object(props) => NormKeepsPropsFit(props);
    case EcmaArray(props) => NormKeepsPropsFit(props);
    case StrictArray(elems) => NormKeepsElemsFit(elems);
    case Array(elems) => NormKeepsElemsFit(elems);
    case _ =>
  }

  lemma {:induction false} NormKeepsPropsFit(props: seq<Property>)
    ensures PropsFit(NormProps(props)) <==> PropsFit(props)
    decreases props
  {
    if props != [] {
      NormKeepsFit(props[0].value);
      NormKeepsPropsFit(props[1..]);
      assert NormProps(props)[1..] == NormProps(props[1..]);
    }
  }

  lemma {:induction false} NormKeepsElemsFit(elems: seq<Value>)
    ensures ElemsFit(NormElems(elems)) <==> ElemsFit(elems)
    decreases elems
  {
    if elems != [] {
      NormKeepsFit(elems[0]);
      NormKeepsElemsFit(elems[1..]);
      assert NormElems(elems)[1..] == NormElems(elems[1..]);
    }
  }

  /** The normal form is written as the value itself, so a second trip over the wire changes nothing more. */
  lemma {:induction false} NormEncodesTheSame(v: Value)
    ensures Encode(Norm(v)) == Encode(v)
    decreases v
  {
    match v
    case Object(props) => NormPropsEncodeTheSame(props);
    case EcmaArray(props) => NormPropsEncodeTheSame(props);
    case StrictArray(elems) => NormElemsEncodeTheSame(elems);
    case Array(elems) => NormElemsEncodeTheSame(elems);
    case _ =>
  }

  lemma {:induction false} NormPropsEncodeTheSame(props: seq<Property>)
    ensures EncodeProps(NormProps(props)) == EncodeProps(props)
    decreases props
  {
    hide Encode, Norm;
    if props != [] {
      NormEncodesTheSame(props[0].value);
      NormPropsEncodeTheSame(props[1..]);
      assert NormProps(props)[1..] == NormProps(props[1..]);
    }
  }

  lemma {:induction false} NormElemsEncodeTheSame(elems: seq<Value>)
    ensures EncodeElems(NormElems(elems)) == EncodeElems(elems)
    decreases elems
  {
    hide Encode, Norm;
    if elems != [] {
      NormEncodesTheSame(elems[0]);
      NormElemsEncodeTheSame(elems[1..]);
      assert NormElems(elems)[1..] == NormElems(elems[1..]);
    }
  }

  /**
   A value comes back, normalized and consuming exactly its own bytes whatever follows them, if
   and only if its keys fit their length field and it nests no deeper than the limit.
   */
  lemma RoundTripIff(v: Value, rest: seq<byte>, depth: nat, refs: nat)
    requires Encodable(v, STRING_LIMIT)
    ensures DecodeValue(Encode(v) + rest, depth, refs) == Ok(Norm(v), |Encode(v)|, refs + References(v))
            <==> KeysFit(v) && depth + Depth(v) <= MAX_NESTING_DEPTH
  {
    if KeysFit(v) {
      ValueReadsBack(v, rest, depth, refs);
    } else {
      NormKeepsFit(v);
      DecodedIsCanonical(Encode(v) + rest, depth, refs, TWO_TO_THE_32);
    }
  }

  /**
   What any bytes decode to, encodes and decodes again to its normal form, but for strings so long that only
   input of 4 GB can hold them.
   */
  lemma ReencodedReadsBack(d: seq<byte>, refs: nat, rest: seq<byte>, refs2: nat)
    requires DecodeValue(d, 0, refs).Ok?
    requires |d| <= STRING_LIMIT || Encodable(DecodeValue(d, 0, refs).value, STRING_LIMIT)
    ensures var v := DecodeValue(d, 0, refs).value;
            DecodeValue(Encode(v) + rest, 0, refs2) == Ok(Norm(v), |Encode(v)|, refs2 + References(v))
  {
    DecodedIsCanonical(d, 0, refs, if |d| <= STRING_LIMIT then STRING_LIMIT else TWO_TO_THE_32);
    ValueReadsBack(DecodeValue(d, 0, refs).value, rest, 0, refs2);
  }

  /** One turn of the loop over all values, on an encoded value. */
  lemma OneOfAll(v: Value, later: seq<byte>, refs: nat)
    ensures var r := DecodeValue(Encode(v) + later, 0, refs);
            && (r.Err? ==> DecodeAll(Encode(v) + later, refs) == AllErr(r.code, r.refs))
            && (r.Ok? && r.used == |Encode(v)| ==>
                  DecodeAll(Encode(v) + later, refs)
                    == match DecodeAll(later, r.refs)
                       case AllOk(values, refs) => AllOk([r.value] + values, refs)
                       case AllErr(code, refs) => AllErr(code, refs))
  {
    hide DecodeValue, Encode;
    assert (Encode(v) + later)[|Encode(v)|..] == later;
  }

  lemma NothingReadsBack(refs: nat)
    ensures DecodeAll(EncodeElems([]), refs) == AllOk(NormElems([]), refs + ElemsReferences([])) && ElemsDepth([]) == 0
  {}

  /** Values written one after the other are read back one after the other. */
  lemma {:induction false} AllReadBack(vs: seq<Value>, refs: nat)
    requires EncodableElems(vs, STRING_LIMIT) && ElemsFit(vs)
    ensures var r := DecodeAll(EncodeElems(vs), refs);
            if ElemsDepth(vs) <= MAX_NESTING_DEPTH + 1 then r == AllOk(NormElems(vs), refs + ElemsReferences(vs))
            else r.AllErr? && r.code == NestingTooDeep
    decreases vs
  {
    hide DecodeAll, DecodeValue, Encode, EncodeElems, Depth, ElemsDepth, Norm, NormElems, References, ElemsReferences;
    if vs == [] {
      NothingReadsBack(refs);
    } else {
      var v, later := vs[0], EncodeElems(vs[1..]);
      ValueReadsBack(v, later, 0, refs);
      UnfoldElems(vs);
      AllReadBack(vs[1..], refs + References(v));
      OneOfAll(v, later, refs);
    }
  }
}
