/** What decoding makes of an encoding that is cut short: exactly which cuts are noticed, and how. */
module Amf0Cuts {
  import opened Bytes
  import opened Amf0
  import opened Amf0RoundTrip

  // ----- cuts that go unnoticed

  /** The first `n` bytes are an array up to the end of an element, or of a part of one that is such a cut itself. */
  predicate CutDecodes(v: Value, n: nat)
    decreases v
  {
    match v
    case StrictArray(elems) => n >= 5 && CutElemsDecode(elems, n - 5)
    case Array(elems) => n >= 5 && CutElemsDecode(elems, n - 5)
    case _ => false
  }

  predicate CutElemsDecode(elems: seq<Value>, n: nat)
    decreases elems
  {
    if n == 0 then true
    else if elems == [] then false
    else if n < |Encode(elems[0])| then CutDecodes(elems[0], n)
    else CutElemsDecode(elems[1..], n - |Encode(elems[0])|)
  }

  /** The array without what was cut off. */
  function Shortened(v: Value, n: nat): Value
    decreases v
  {
    match v
    case StrictArray(elems) => if n < 5 then v else StrictArray(ShortenedElems(elems, n - 5))
    case Array(elems) => if n < 5 then v else StrictArray(ShortenedElems(elems, n - 5))
    case _ => v
  }

  function ShortenedElems(elems: seq<Value>, n: nat): seq<Value>
    decreases elems
  {
    if n == 0 || elems == [] then []
    else if n < |Encode(elems[0])| then [Shortened(elems[0], n)]
    else [elems[0]] + ShortenedElems(elems[1..], n - |Encode(elems[0])|)
  }

  /**
   The cut takes just the last byte of an empty object at the depth limit: the two zeros left of its end marker
   announce a property, and the depth of that is refused before its absence is noticed.
   */
  predicate EndsAtLimit(v: Value, n: nat, depth: nat)
    decreases v
  {
    match v
    case Object(props) => n >= 1 && PropsEndAtLimit(props, n - 1, depth)
    case EcmaArray(props) => n >= 1 && PropsEndAtLimit(props, n - 1, depth)
    case StrictArray(elems) => n >= 5 && ElemsEndAtLimit(elems, n - 5, depth)
    case Array(elems) => n >= 5 && ElemsEndAtLimit(elems, n - 5, depth)
    case _ => false
  }

  predicate PropsEndAtLimit(props: seq<Property>, n: nat, depth: nat)
    decreases props
  {
    if props == [] then n == 2 && depth == MAX_NESTING_DEPTH
    else
      var front := 2 + |props[0].key|;
      var length := |Encode(props[0].value)|;
      if n < front then false
      else if n - front < length then
        !CutDecodes(props[0].value, n - front) && EndsAtLimit(props[0].value, n - front, depth + 1)
      else PropsEndAtLimit(props[1..], n - front - length, depth)
  }

  predicate ElemsEndAtLimit(elems: seq<Value>, n: nat, depth: nat)
    decreases elems
  {
    if n == 0 || elems == [] then false
    else if n < |Encode(elems[0])| then EndsAtLimit(elems[0], n, depth + 1)
    else ElemsEndAtLimit(elems[1..], n - |Encode(elems[0])|, depth)
  }

  // ----- decoding a cut encoding

  /** The result of decoding the first `n` bytes. */
  predicate CutReads(r: Decoded, v: Value, n: nat, depth: nat, refs: nat) {
    if CutDecodes(v, n) then r == Ok(Norm(Shortened(v, n)), n, refs + References(Shortened(v, n)))
    else r.Err? && r.code == if EndsAtLimit(v, n, depth) then NestingTooDeep else UnexpectedEnd
  }

  predicate CutPropsRead(r: PropsDecoded, props: seq<Property>, n: nat, depth: nat) {
    r.PropsErr? && r.code == if PropsEndAtLimit(props, n, depth) then NestingTooDeep else UnexpectedEnd
  }

  predicate CutElemsRead(r: ElemsDecoded, elems: seq<Value>, n: nat, acc: seq<Value>, depth: nat, refs: nat) {
    if CutElemsDecode(elems, n)
    then r == ElemsOk(acc + NormElems(ShortenedElems(elems, n)), n, refs + ElemsReferences(ShortenedElems(elems, n)))
    else r.ElemsErr? && r.code == if ElemsEndAtLimit(elems, n, depth) then NestingTooDeep else UnexpectedEnd
  }

  predicate AllPropsFit(props: seq<Property>, depth: nat) {
    EncodableProps(props, STRING_LIMIT) && PropsFit(props) && depth + PropsDepth(props) <= MAX_NESTING_DEPTH
  }

  predicate AllElemsFit(elems: seq<Value>, depth: nat) {
    EncodableElems(elems, STRING_LIMIT) && ElemsFit(elems) && depth + ElemsDepth(elems) <= MAX_NESTING_DEPTH
  }

  /**
   A cut encoding decodes if and only if the cut leaves whole elements of nested arrays, and then to the array
   without the rest, using all the bytes there are. Every other cut is refused: as a premature end, but for the
   one cut before the last byte of an empty object at the depth limit, which is refused for its depth.
   */
  lemma {:induction false} CutIsNoticed(v: Value, n: nat, depth: nat, refs: nat)
    requires Fits(v, depth) && n < |Encode(v)|
    ensures CutReads(DecodeValue(Encode(v)[..n], depth, refs), v, n, depth, refs)
    decreases v
  {
    hide DecodeValue, EncodeProps, EncodeElems, EncodeString, BigEndian4, CutReads, Encodable, KeysFit, Depth;
    if n == 0 || IsPlain(v) {
      CutPlain(v, n, depth, refs);
    } else {
      FitsParts(v, depth);
      match v
      case String(s) => CutString(s, n, depth, refs);
      case Object(props) => CutProps(props, n - 1, [], depth, refs); CutObject(v, props, n, depth, refs);
      case EcmaArray(props) => CutProps(props, n - 1, [], depth, refs); CutObject(v, props, n, depth, refs);
      case StrictArray(elems) =>
        if n >= 5 { CutElems(elems, n - 5, [], depth, refs); }
        CutArray(v, elems, n, depth, refs);
      case Array(elems) =>
        if n >= 5 { CutElems(elems, n - 5, [], depth, refs); }
        CutArray(v, elems, n, depth, refs);
    }
  }

  predicate IsPlain(v: Value) {
    !v.String? && !v.Object? && !v.EcmaArray? && !v.StrictArray? && !v.Array?
  }

  lemma FitsParts(v: Value, depth: nat)
    requires Fits(v, depth)
    ensures match v
            case String(s) => |s| < STRING_LIMIT
            case Object(props) => AllPropsFit(props, depth)
            case EcmaArray(props) => AllPropsFit(props, depth)
            case StrictArray(elems) => |elems| < TWO_TO_THE_32 && AllElemsFit(elems, depth)
            case Array(elems) => |elems| < TWO_TO_THE_32 && AllElemsFit(elems, depth)
            case _ => true
    ensures depth <= MAX_NESTING_DEPTH
  {}

  lemma CutPlain(v: Value, n: nat, depth: nat, refs: nat)
    requires Fits(v, depth) && n < |Encode(v)| && (n == 0 || IsPlain(v))
    ensures CutReads(DecodeValue(Encode(v)[..n], depth, refs), v, n, depth, refs)
  {
    hide Encodable, KeysFit, FromBigEndian8, BigEndian8, DecodeProps, DecodeElems;
    if n == 0 {
      NoBytes(depth, refs);
      assert Encode(v)[..0] == [];
      hide DecodeValue, Encode;
    }
  }

  lemma NoBytes(depth: nat, refs: nat)
    requires depth <= MAX_NESTING_DEPTH
    ensures DecodeValue([], depth, refs) == Err(UnexpectedEnd, refs)
  {}

  lemma CutString(s: seq<byte>, n: nat, depth: nat, refs: nat)
    requires |s| < STRING_LIMIT && 0 < n < |EncodeString(s)| && depth <= MAX_NESTING_DEPTH
    ensures CutReads(DecodeValue(Encode(String(s))[..n], depth, refs), String(s), n, depth, refs)
  {
    hide DecodeValue, DecodeString, DecodeLongString, BigEndian2, BigEndian4;
    var d := EncodeString(s)[..n];
    DecodesByMarker(d, depth, refs);
    if |s| > 65535 {
      assert d[1..] == (BigEndian4(|s|) + s)[..n - 1];
      hide EncodeString;
      CutLongString(s, n - 1, refs);
    } else {
      assert d[1..] == (BigEndian2(|s|) + s)[..n - 1];
      hide EncodeString;
      CutShortString(s, n - 1, refs);
    }
  }

  lemma CutLongString(s: seq<byte>, n: nat, refs: nat)
    requires |s| < STRING_LIMIT && n < |s| + 4
    ensures DecodeLongString((BigEndian4(|s|) + s)[..n], refs) == Err(UnexpectedEnd, refs)
  {
    hide FromBigEndian4, BigEndian4;
    if n >= 4 {
      assert (BigEndian4(|s|) + s)[..n] == BigEndian4(|s|) + s[..n - 4];
      BigEndian4Inverse(|s|, s[..n - 4]);
    }
  }

  lemma CutShortString(s: seq<byte>, n: nat, refs: nat)
    requires |s| < 0x10000 && n < |s| + 2
    ensures DecodeString((BigEndian2(|s|) + s)[..n], refs) == Err(UnexpectedEnd, refs)
  {
    hide FromBigEndian2, BigEndian2;
    if n >= 2 {
      assert (BigEndian2(|s|) + s)[..n] == BigEndian2(|s|) + s[..n - 2];
      BigEndian2Inverse(|s|, s[..n - 2]);
    }
  }

  lemma CutObject(v: Value, props: seq<Property>, n: nat, depth: nat, refs: nat)
    requires (v == Object(props) || v == EcmaArray(props)) && 0 < n < |Encode(v)| && depth <= MAX_NESTING_DEPTH
    requires CutPropsRead(DecodeProps((EncodeProps(props) + [0, 0, OBJECT_END_MARKER])[..n - 1], [], depth, refs), props, n - 1, depth)
    ensures CutReads(DecodeValue(Encode(v)[..n], depth, refs), v, n, depth, refs)
  {
    hide DecodeValue, DecodeProps, EncodeProps, PropsEndAtLimit;
    var d := Encode(v)[..n];
    assert Encode(v) == [OBJECT_MARKER] + (EncodeProps(props) + [0, 0, OBJECT_END_MARKER]);
    assert d[1..] == (EncodeProps(props) + [0, 0, OBJECT_END_MARKER])[..n - 1];
    DecodesByMarker(d, depth, refs);
  }

  lemma CutArray(v: Value, elems: seq<Value>, n: nat, depth: nat, refs: nat)
    requires v == StrictArray(elems) || v == Array(elems)
    requires 0 < n < |Encode(v)| && |elems| < TWO_TO_THE_32 && depth <= MAX_NESTING_DEPTH
    requires n >= 5 ==> n - 5 <= |EncodeElems(elems)|
                        && CutElemsRead(DecodeElems(EncodeElems(elems)[..n - 5], |elems|, [], depth, refs), elems, n - 5, [], depth, refs)
    ensures CutReads(DecodeValue(Encode(v)[..n], depth, refs), v, n, depth, refs)
  {
    hide DecodeElems, EncodeElems, NormElems, BigEndian4, FromBigEndian4, CutElemsDecode, ElemsEndAtLimit, ShortenedElems, ElemsReferences;
    var d := Encode(v)[..n];
    var body := BigEndian4(|elems|) + EncodeElems(elems);
    assert Encode(v) == [STRICT_ARRAY_MARKER] + body;
    if n >= 5 {
      DecodesByMarker(d, depth, refs);
      hide DecodeValue;
      var rest := EncodeElems(elems)[..n - 5];
      assert d == [STRICT_ARRAY_MARKER] + body[..n - 1] && body[..n - 1] == BigEndian4(|elems|) + rest;
      assert d[1..] == BigEndian4(|elems|) + rest;
      BigEndian4Inverse(|elems|, rest);
      assert d[1..][4..] == rest;
      assert [] + NormElems(ShortenedElems(elems, n - 5)) == NormElems(ShortenedElems(elems, n - 5));
    } else {
      ShortArray(d, depth, refs);
    }
  }

  lemma ShortArray(d: seq<byte>, depth: nat, refs: nat)
    requires 0 < |d| < 5 && d[0] == STRICT_ARRAY_MARKER && depth <= MAX_NESTING_DEPTH
    ensures DecodeValue(d, depth, refs) == Err(UnexpectedEnd, refs)
  {}

  // ----- properties

  lemma {:induction false} CutProps(props: seq<Property>, n: nat, acc: seq<Property>, depth: nat, refs: nat)
    requires AllPropsFit(props, depth) && depth <= MAX_NESTING_DEPTH && n < |EncodeProps(props)| + 3
    ensures var d := (EncodeProps(props) + [0, 0, OBJECT_END_MARKER])[..n];
            CutPropsRead(DecodeProps(d, acc, depth, refs), props, n, depth)
    decreases props
  {
    hide DecodeValue, DecodeProps, Encode, EncodeProp, EncodeProps, Encodable, KeysFit, Depth, Put, CutReads,
         PropsEndAtLimit, CutPropsRead, AllPropsFit, References, Norm, ReadsBack;
    if props == [] {
      NoPropBytes();
      CutEndMarker(n, acc, depth, refs);
    } else {
      FirstPropFits(props, depth);
      var p, e := props[0], EncodeProps(props[1..]) + [0, 0, OBJECT_END_MARKER];
      UnfoldProps(props);
      assert EncodeProps(props) + [0, 0, OBJECT_END_MARKER] == EncodeProp(p) + e;
      PropLayout(p, EncodeProp(p) + e, e);
      var front := 2 + |p.key|;
      var length := |Encode(p.value)|;
      if n < front {
        CutKey(props, n, e, acc, depth, refs);
      } else if n - front < length {
        CutIsNoticed(p.value, n - front, depth + 1, refs);
        CutInValue(props, n, e, acc, depth, refs);
      } else {
        var m := n - front - length;
        var value := Norm(p.value);
        CutProps(props[1..], m, Put(acc, p.key, value), depth, refs + References(p.value));
        ValueReadsBack(p.value, e[..m], depth + 1, refs);
        CutBehindProp(props, n, e, acc, depth, refs);
      }
    }
  }

  lemma NoPropBytes()
    ensures EncodeProps([]) == []
  {}

  lemma FirstPropFits(props: seq<Property>, depth: nat)
    requires props != [] && AllPropsFit(props, depth)
    ensures |props[0].key| < 0x10000 && Fits(props[0].value, depth + 1) && AllPropsFit(props[1..], depth)
  {
    hide Encodable, KeysFit, Depth;
  }

  lemma FirstElemFits(elems: seq<Value>, depth: nat)
    requires elems != [] && AllElemsFit(elems, depth)
    ensures Fits(elems[0], depth + 1) && AllElemsFit(elems[1..], depth)
  {
    hide Encodable, KeysFit, Depth;
  }

  lemma CutEndMarker(n: nat, acc: seq<Property>, depth: nat, refs: nat)
    requires n < 3 && depth <= MAX_NESTING_DEPTH
    ensures CutPropsRead(DecodeProps((EncodeProps([]) + [0, 0, OBJECT_END_MARKER])[..n], acc, depth, refs), [], n, depth)
  {
    hide Put;
    var d := (EncodeProps([]) + [0, 0, OBJECT_END_MARKER])[..n];
    assert EncodeProps([]) + [0, 0, OBJECT_END_MARKER] == [0, 0, OBJECT_END_MARKER];
    if n == 2 {
      assert d == [0, 0] && d[2 + 0..] == [];
      OneProp(d, acc, depth, refs);
    } else {
      LastProp(d, acc, depth, refs);
    }
  }

  /** The cut falls into the length or the bytes of a key. */
  lemma CutKey(props: seq<Property>, n: nat, e: seq<byte>, acc: seq<Property>, depth: nat, refs: nat)
    requires props != [] && |props[0].key| < 0x10000 && n < 2 + |props[0].key|
    ensures CutPropsRead(DecodeProps((EncodeProp(props[0]) + e)[..n], acc, depth, refs), props, n, depth)
  {
    hide DecodeProps, EncodeProp, Encode, FromBigEndian2;
    var d := EncodeProp(props[0]) + e;
    PropLayout(props[0], d, e);
    SameLengthField(d, n);
    LastProp(d[..n], acc, depth, refs);
  }

  lemma SameLengthField(d: seq<byte>, n: nat)
    requires n <= |d|
    ensures n >= 2 ==> FromBigEndian2(d[..n]) == FromBigEndian2(d) && (AtEndMarker(d[..n]) ==> FromBigEndian2(d) == 0)
  {}

  /** The cut falls into the value: either it is noticed there, or the object's end is missed behind it. */
  lemma CutInValue(props: seq<Property>, n: nat, e: seq<byte>, acc: seq<Property>, depth: nat, refs: nat)
    requires props != [] && |props[0].key| < 0x10000
    requires var x := n - 2 - |props[0].key|;
             0 <= x < |Encode(props[0].value)|
             && CutReads(DecodeValue(Encode(props[0].value)[..x], depth + 1, refs), props[0].value, x, depth + 1, refs)
    ensures CutPropsRead(DecodeProps((EncodeProp(props[0]) + e)[..n], acc, depth, refs), props, n, depth)
  {
    hide DecodeProps, DecodeValue, EncodeProp, Encode, FromBigEndian2, CutDecodes, EndsAtLimit, Put;
    var p, d := props[0], EncodeProp(props[0]) + e;
    var x := n - 2 - |p.key|;
    PropLayout(p, d, e);
    SameLengthField(d, n);
    assert d[..n][2 + |p.key|..] == Encode(p.value)[..x] by {
      assert d[..n][2 + |p.key|..] == d[2 + |p.key|..][..x];
    }
    assert !AtEndMarker(d[..n]);
    OneProp(d[..n], acc, depth, refs);
    var r := DecodeValue(Encode(p.value)[..x], depth + 1, refs);
    if CutDecodes(p.value, x) {
      assert d[..n][2 + |p.key| + x..] == [];
      LastProp([], Put(acc, d[..n][2..2 + |p.key|], r.value), depth, r.refs);
    }
  }

  /** The cut falls behind the property: it is read, and the rest is cut. */
  lemma CutBehindProp(props: seq<Property>, n: nat, e: seq<byte>, acc: seq<Property>, depth: nat, refs: nat)
    requires props != [] && |props[0].key| < 0x10000 && depth + 1 + Depth(props[0].value) <= MAX_NESTING_DEPTH
    requires var m := n - 2 - |props[0].key| - |Encode(props[0].value)|;
             && 0 <= m <= |e|
             && ReadsBack(DecodeValue(Encode(props[0].value) + e[..m], depth + 1, refs), props[0].value, depth + 1, refs)
             && CutPropsRead(DecodeProps(e[..m], Put(acc, props[0].key, Norm(props[0].value)), depth, refs + References(props[0].value)),
                             props[1..], m, depth)
    ensures CutPropsRead(DecodeProps((EncodeProp(props[0]) + e)[..n], acc, depth, refs), props, n, depth)
  {
    hide DecodeProps, DecodeValue, EncodeProp, Encode, Norm, References, Depth, CutDecodes, EndsAtLimit, Put;
    var p := props[0];
    var m := n - 2 - |p.key| - |Encode(p.value)|;
    PropLayout(p, EncodeProp(p) + e, e);
    assert (EncodeProp(p) + e)[..n] == EncodeProp(p) + e[..m];
    OnePropReads(p, e[..m], acc, depth, refs);
  }

  // ----- elements

  lemma {:induction false} CutElems(elems: seq<Value>, n: nat, acc: seq<Value>, depth: nat, refs: nat)
    requires AllElemsFit(elems, depth) && depth <= MAX_NESTING_DEPTH && n < |EncodeElems(elems)|
    ensures CutElemsRead(DecodeElems(EncodeElems(elems)[..n], |elems|, acc, depth, refs), elems, n, acc, depth, refs)
    decreases elems
  {
    hide DecodeValue, DecodeElems, Encode, EncodeElems, Encodable, KeysFit, Depth, CutReads, CutElemsRead,
         AllElemsFit, References, Norm, ReadsBack;
    if n == 0 {
      CutToNothing(elems, acc, depth, refs);
    } else {
      SomeElem(elems);
      UnfoldElems(elems);
      FirstElemFits(elems, depth);
      var v, e := elems[0], EncodeElems(elems[1..]);
      if n < |Encode(v)| {
        assert (Encode(v) + e)[..n] == Encode(v)[..n];
        CutIsNoticed(v, n, depth + 1, refs);
        CutInElem(elems, n, acc, depth, refs);
      } else {
        var m := n - |Encode(v)|;
        assert (Encode(v) + e)[..n] == Encode(v) + e[..m];
        ValueReadsBack(v, e[..m], depth + 1, refs);
        CutElems(elems[1..], m, acc + [Norm(v)], depth, refs + References(v));
        CutBehindElem(elems, m, acc, depth, refs);
      }
    }
  }

  lemma CutToNothing(elems: seq<Value>, acc: seq<Value>, depth: nat, refs: nat)
    ensures CutElemsRead(DecodeElems(EncodeElems(elems)[..0], |elems|, acc, depth, refs), elems, 0, acc, depth, refs)
  {
    hide EncodeElems;
    assert EncodeElems(elems)[..0] == [] && acc + [] == acc;
  }

  lemma SomeElem(elems: seq<Value>)
    ensures |EncodeElems(elems)| > 0 ==> elems != []
  {}

  lemma CutInElem(elems: seq<Value>, n: nat, acc: seq<Value>, depth: nat, refs: nat)
    requires elems != [] && 0 < n < |Encode(elems[0])|
    requires CutReads(DecodeValue(Encode(elems[0])[..n], depth + 1, refs), elems[0], n, depth + 1, refs)
    ensures CutElemsRead(DecodeElems(Encode(elems[0])[..n], |elems|, acc, depth, refs), elems, n, acc, depth, refs)
  {
    hide DecodeValue, Encode, CutDecodes, EndsAtLimit, Norm, References, Shortened;
    var d := Encode(elems[0])[..n];
    assert d[n..] == [];
    var short := Shortened(elems[0], n);
    assert ShortenedElems(elems, n) == [short];
    assert [short][1..] == [] && NormElems([short]) == [Norm(short)] && ElemsReferences([short]) == References(short);
  }

  lemma CutBehindElem(elems: seq<Value>, m: nat, acc: seq<Value>, depth: nat, refs: nat)
    requires elems != [] && m <= |EncodeElems(elems[1..])| && depth + 1 + Depth(elems[0]) <= MAX_NESTING_DEPTH
    requires ReadsBack(DecodeValue(Encode(elems[0]) + EncodeElems(elems[1..])[..m], depth + 1, refs), elems[0], depth + 1, refs)
    requires CutElemsRead(DecodeElems(EncodeElems(elems[1..])[..m], |elems| - 1, acc + [Norm(elems[0])], depth, refs + References(elems[0])),
                          elems[1..], m, acc + [Norm(elems[0])], depth, refs + References(elems[0]))
    ensures CutElemsRead(DecodeElems(Encode(elems[0]) + EncodeElems(elems[1..])[..m], |elems|, acc, depth, refs),
                         elems, |Encode(elems[0])| + m, acc, depth, refs)
  {
    hide DecodeValue, DecodeElems, Encode, EncodeElems, CutDecodes, EndsAtLimit, Norm, References, Depth, Shortened;
    var later := EncodeElems(elems[1..])[..m];
    OneElemReads(elems[0], later, |elems|, acc, depth, refs);
    var short := ShortenedElems(elems[1..], m);
    var whole := [elems[0]] + short;
    NonemptyEncoding(elems[0]);
    assert ShortenedElems(elems, |Encode(elems[0])| + m) == whole;
    assert whole[1..] == short;
    UnfoldElems(whole);
    assert acc + [Norm(elems[0])] + NormElems(short) == acc + NormElems(whole);
  }

  lemma NonemptyEncoding(v: Value)
    ensures |Encode(v)| > 0
  {}

  /** For instance: two nulls announced, one sent, and one decoded without an error. */
  lemma CutArrayIsShorter(refs: nat)
    ensures DecodeValue([STRICT_ARRAY_MARKER, 0, 0, 0, 2, NULL_MARKER], 0, refs) == Ok(StrictArray([Null]), 6, refs + 1)
  {
    var elems := [Null, Null];
    var v := StrictArray(elems);
    assert elems[1..] == [Null] && elems[1..][1..] == [];
    assert EncodeElems(elems) == [NULL_MARKER, NULL_MARKER];
    assert BigEndian4(2) == [0, 0, 0, 2];
    assert Encode(v)[..6] == [STRICT_ARRAY_MARKER, 0, 0, 0, 2, NULL_MARKER];
    assert ShortenedElems(elems, 1) == [Null] && CutElemsDecode(elems, 1);
    assert NormElems([Null]) == [Null] && ElemsReferences([Null]) == 0;
    CutIsNoticed(v, 6, 0, refs);
  }
}
