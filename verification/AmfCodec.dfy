/** The codec as a class: decoding loops over an offset and fills the reference table, encoding grows a buffer. */
module AmfCodec {
  import opened Bytes
  import opened Amf0
  import opened Amf0RoundTrip

  datatype Outcome<T> = Success(value: T, bytesConsumed: nat) | Failure(code: ErrorCode)

  function Plain(r: Decoded): Outcome<Value> {
    match r
    case Ok(value, used, _) => Success(value, used)
    case Err(code, _) => Failure(code)
  }

  function PlainProps(r: PropsDecoded): Outcome<seq<Property>> {
    match r
    case PropsOk(props, used, _) => Success(props, used)
    case PropsErr(code, _) => Failure(code)
  }

  function PlainElems(r: ElemsDecoded): Outcome<seq<Value>> {
    match r
    case ElemsOk(elems, used, _) => Success(elems, used)
    case ElemsErr(code, _) => Failure(code)
  }

  class Codec {
    var amf0ObjectReferences: seq<Value>

    constructor ()
      ensures amf0ObjectReferences == []
    {
      amf0ObjectReferences := [];
    }

    method ResetReferenceTables()
      modifies this
      ensures amf0ObjectReferences == []
    {
      amf0ObjectReferences := [];
    }

    // ----- decoding

    method DecodeAMF0(data: seq<byte>) returns (r: Outcome<Value>)
      modifies this
      ensures var spec := DecodeValue(data, 0, |old(amf0ObjectReferences)|);
              r == Plain(spec) && |amf0ObjectReferences| == spec.refs
    {
      r := DecodeAMF0Value(data, 0);
    }

    method DecodeAMF0Value(data: seq<byte>, depth: nat) returns (r: Outcome<Value>)
      modifies this
      ensures var spec := DecodeValue(data, depth, |old(amf0ObjectReferences)|);
              r == Plain(spec) && |amf0ObjectReferences| == spec.refs
      decreases |data|, 0
    {
      hide DecodeProps, DecodeElems, FromBigEndian2, FromBigEndian4, FromBigEndian8;
      if depth > MAX_NESTING_DEPTH {
        return Failure(NestingTooDeep);
      }
      if |data| < 1 {
        return Failure(UnexpectedEnd);
      }
      var marker := data[0];
      var body := data[1..];
      if marker == NUMBER_MARKER {
        if |body| < 8 {
          return Failure(UnexpectedEnd);
        }
        r := Success(Number(FromBigEndian8(body)), 9);
      } else if marker == BOOLEAN_MARKER {
        if |body| < 1 {
          return Failure(UnexpectedEnd);
        }
        r := Success(Boolean(body[0] != 0), 2);
      } else if marker == STRING_MARKER {
        r := DecodeAMF0String(body);
      } else if marker == OBJECT_MARKER {
        var ps := DecodeAMF0Properties(body, depth);
        if ps.Failure? {
          return Failure(ps.code);
        }
        r := Success(Object(ps.value), 1 + ps.bytesConsumed);
        amf0ObjectReferences := amf0ObjectReferences + [r.value];
      } else if marker == NULL_MARKER {
        r := Success(Null, 1);
      } else if marker == UNDEFINED_MARKER {
        r := Success(Undefined, 1);
      } else if marker == REFERENCE_MARKER {
        if |body| < 2 {
          return Failure(UnexpectedEnd);
        }
        var index := FromBigEndian2(body);
        if index >= |amf0ObjectReferences| {
          return Failure(InvalidReference);
        }
        r := Success(Reference(index), 3);
      } else if marker == ECMA_ARRAY_MARKER {
        if |body| < 4 {
          return Failure(UnexpectedEnd);
        }
        var ps := DecodeAMF0Properties(body[4..], depth);
        if ps.Failure? {
          return Failure(ps.code);
        }
        r := Success(EcmaArray(ps.value), 5 + ps.bytesConsumed);
        amf0ObjectReferences := amf0ObjectReferences + [r.value];
      } else if marker == STRICT_ARRAY_MARKER {
        if |body| < 4 {
          return Failure(UnexpectedEnd);
        }
        var es := DecodeAMF0Elements(body[4..], FromBigEndian4(body), depth);
        if es.Failure? {
          return Failure(es.code);
        }
        r := Success(StrictArray(es.value), 5 + es.bytesConsumed);
        amf0ObjectReferences := amf0ObjectReferences + [r.value];
      } else if marker == DATE_MARKER {
        if |body| < 10 {
          return Failure(UnexpectedEnd);
        }
        r := Success(Date(FromBigEndian8(body)), 11);
      } else if marker == LONG_STRING_MARKER {
        r := DecodeAMF0LongString(body);
      } else if marker == AVMPLUS_MARKER {
        r := Failure(Amf3);
      } else {
        r := Failure(InvalidType);
      }
    }

    method DecodeAMF0String(body: seq<byte>) returns (r: Outcome<Value>)
      ensures forall refs :: r == Plain(DecodeString(body, refs))
    {
      if |body| < 2 {
        return Failure(UnexpectedEnd);
      }
      var strLength := FromBigEndian2(body);
      if |body| < 2 + strLength {
        return Failure(UnexpectedEnd);
      }
      r := Success(String(body[2..2 + strLength]), 3 + strLength);
    }

    method DecodeAMF0LongString(body: seq<byte>) returns (r: Outcome<Value>)
      ensures forall refs :: r == Plain(DecodeLongString(body, refs))
    {
      if |body| < 4 {
        return Failure(UnexpectedEnd);
      }
      var strLength := FromBigEndian4(body);
      if |body| < (4 + strLength) % TWO_TO_THE_32 {
        return Failure(UnexpectedEnd);
      }
      if |body| < 4 + strLength {
        return Failure(OutOfBounds);
      }
      r := Success(String(body[4..4 + strLength]), 1 + (4 + strLength) % TWO_TO_THE_32);
    }

    /** The loop shared by objects and ECMA arrays. */
    method DecodeAMF0Properties(data: seq<byte>, depth: nat) returns (r: Outcome<seq<Property>>)
      modifies this
      ensures var spec := DecodeProps(data, [], depth, |old(amf0ObjectReferences)|);
              r == PlainProps(spec) && |amf0ObjectReferences| == spec.refs
      decreases |data|, 1
    {
      hide DecodeProps, DecodeValue, FromBigEndian2, Put;
      ghost var spec := DecodeProps(data, [], depth, |old(amf0ObjectReferences)|);
      var properties: seq<Property> := [];
      var offset: nat := 0;
      assert data[0..] == data;
      while offset < |data|
        invariant offset <= |data|
        invariant spec == Later(offset, DecodeProps(data[offset..], properties, depth, |amf0ObjectReferences|))
      {
        var d := data[offset..];
        if |d| >= 3 && d[0] == 0 && d[1] == 0 && d[2] == OBJECT_END_MARKER {
          LastProp(d, properties, depth, |amf0ObjectReferences|);
          return Success(properties, offset + 3);
        }
        var name := DecodeAMF0ShortString(d);
        if name.Failure? {
          LastProp(d, properties, depth, |amf0ObjectReferences|);
          return Failure(name.code);
        }
        OneProp(d, properties, depth, |amf0ObjectReferences|);
        var value := DecodeAMF0Value(d[name.bytesConsumed..], depth + 1);
        if value.Failure? {
          return Failure(value.code);
        }
        properties := Put(properties, name.value, value.value);
        assert d[name.bytesConsumed + value.bytesConsumed..] == data[offset + name.bytesConsumed + value.bytesConsumed..];
        offset := offset + name.bytesConsumed + value.bytesConsumed;
      }
      assert data[offset..] == [];
      LastProp([], properties, depth, |amf0ObjectReferences|);
      r := Failure(UnexpectedEnd);
    }

    method DecodeAMF0ShortString(data: seq<byte>) returns (r: Outcome<seq<byte>>)
      ensures r.Success? <==> |data| >= 2 && |data| >= 2 + FromBigEndian2(data)
      ensures r.Success? ==> r == Success(data[2..2 + FromBigEndian2(data)], 2 + FromBigEndian2(data))
      ensures r.Failure? ==> r.code == UnexpectedEnd
    {
      if |data| < 2 {
        return Failure(UnexpectedEnd);
      }
      var strLength := FromBigEndian2(data);
      if |data| < 2 + strLength {
        return Failure(UnexpectedEnd);
      }
      r := Success(data[2..2 + strLength], 2 + strLength);
    }

    method DecodeAMF0Elements(data: seq<byte>, count: nat, depth: nat) returns (r: Outcome<seq<Value>>)
      modifies this
      ensures var spec := DecodeElems(data, count, [], depth, |old(amf0ObjectReferences)|);
              r == PlainElems(spec) && |amf0ObjectReferences| == spec.refs
      decreases |data|, 1
    {
      hide DecodeValue;
      ghost var spec := DecodeElems(data, count, [], depth, |old(amf0ObjectReferences)|);
      var elements: seq<Value> := [];
      var offset: nat := 0;
      var i: nat := 0;
      assert data[0..] == data;
      while i < count && offset < |data|
        invariant i <= count && offset <= |data|
        invariant spec == LaterElems(offset, DecodeElems(data[offset..], count - i, elements, depth, |amf0ObjectReferences|))
        decreases count - i
      {
        var d := data[offset..];
        var value := DecodeAMF0Value(d, depth + 1);
        if value.Failure? {
          return Failure(value.code);
        }
        elements := elements + [value.value];
        assert d[value.bytesConsumed..] == data[offset + value.bytesConsumed..];
        offset := offset + value.bytesConsumed;
        i := i + 1;
      }
      r := Success(elements, offset);
    }

    method DecodeAllAMF0(data: seq<byte>) returns (r: Outcome<seq<Value>>)
      modifies this
      ensures var spec := DecodeAll(data, |old(amf0ObjectReferences)|);
              && |amf0ObjectReferences| == spec.refs
              && r == match spec case AllOk(values, _) => Success(values, |data|) case AllErr(code, _) => Failure(code)
    {
      hide DecodeValue;
      ghost var spec := DecodeAll(data, |old(amf0ObjectReferences)|);
      var values: seq<Value> := [];
      var offset: nat := 0;
      assert data[0..] == data;
      while offset < |data|
        invariant offset <= |data|
        invariant spec == Behind(values, DecodeAll(data[offset..], |amf0ObjectReferences|))
      {
        var d := data[offset..];
        var value := DecodeAMF0Value(d, 0);
        if value.Failure? {
          return Failure(value.code);
        }
        values := values + [value.value];
        assert d[value.bytesConsumed..] == data[offset + value.bytesConsumed..];
        offset := offset + value.bytesConsumed;
      }
      assert data[offset..] == [] && values + [] == values;
      r := Success(values, |data|);
    }

    // ----- encoding

    static method EncodeAMF0(value: Value) returns (r: seq<byte>)
      ensures r == Encode(value)
    {
      r := EncodeAMF0Value([], value);
    }

    static method EncodeAMF0Value(buffer: seq<byte>, value: Value) returns (r: seq<byte>)
      ensures r == buffer + Encode(value)
      decreases value
    {
      match value
      case Null => r := buffer + [NULL_MARKER];
      case Undefined => r := buffer + [UNDEFINED_MARKER];
      case Boolean(b) => r := buffer + [BOOLEAN_MARKER] + [if b then 1 else 0];
      case Number(bits) => r := buffer + [NUMBER_MARKER] + BigEndian8(bits);
      case String(s) => r := EncodeAMF0String(buffer, s);
      case Object(props) => r := EncodeAMF0Object(buffer, props);
      case EcmaArray(props) => r := EncodeAMF0Object(buffer, props);
      case StrictArray(elems) => r := EncodeAMF0Array(buffer, elems);
      case Array(elems) => r := EncodeAMF0Array(buffer, elems);
      case _ => r := buffer + [NULL_MARKER];
    }

    static method EncodeAMF0String(buffer: seq<byte>, s: seq<byte>) returns (r: seq<byte>)
      ensures r == buffer + EncodeString(s)
    {
      if |s| > 65535 {
        r := buffer + [LONG_STRING_MARKER] + BigEndian4(|s| % TWO_TO_THE_32);
      } else {
        r := buffer + [STRING_MARKER] + BigEndian2(|s|);
      }
      r := r + s;
    }

    static method EncodeAMF0Object(buffer: seq<byte>, props: seq<Property>) returns (r: seq<byte>)
      ensures r == buffer + Encode(Object(props))
      decreases props
    {
      hide Encode, EncodeProps, BigEndian2;
      r := buffer + [OBJECT_MARKER];
      ghost var all := r + EncodeProps(props);
      var i: nat := 0;
      assert props[0..] == props;
      while i < |props|
        invariant i <= |props|
        invariant r + EncodeProps(props[i..]) == all
      {
        PropBytes(props, i);
        ghost var before := r;
        r := r + BigEndian2(|props[i].key| % 0x10000) + props[i].key;
        r := EncodeAMF0Value(r, props[i].value);
        assert r == before + EncodeProp(props[i]);
        i := i + 1;
      }
      NoPropBytesLeft(props);
      assert r + [] == r;
      r := r + [0, 0, OBJECT_END_MARKER];
      ObjectBytes(props);
    }

    static method EncodeAMF0Array(buffer: seq<byte>, elems: seq<Value>) returns (r: seq<byte>)
      ensures r == buffer + Encode(StrictArray(elems))
      decreases elems
    {
      hide Encode;
      r := buffer + [STRICT_ARRAY_MARKER] + BigEndian4(|elems| % TWO_TO_THE_32);
      var i: nat := 0;
      assert elems[0..] == elems;
      while i < |elems|
        invariant i <= |elems|
        invariant r + EncodeElems(elems[i..])
               == buffer + [STRICT_ARRAY_MARKER] + BigEndian4(|elems| % TWO_TO_THE_32) + EncodeElems(elems)
      {
        assert elems[i..][1..] == elems[i + 1..];
        r := EncodeAMF0Value(r, elems[i]);
        i := i + 1;
      }
      assert elems[i..] == [] && r + [] == r;
      ArrayBytes(elems);
    }
  }

  lemma PropBytes(props: seq<Property>, i: nat)
    requires i < |props|
    ensures EncodeProps(props[i..]) == EncodeProp(props[i]) + EncodeProps(props[i + 1..])
  {
    hide EncodeProp;
    assert props[i..][1..] == props[i + 1..];
  }

  lemma NoPropBytesLeft(props: seq<Property>)
    ensures EncodeProps(props[|props|..]) == []
  {}

  lemma ObjectBytes(props: seq<Property>)
    ensures Encode(Object(props)) == [OBJECT_MARKER] + EncodeProps(props) + [0, 0, OBJECT_END_MARKER]
  {}

  lemma ArrayBytes(elems: seq<Value>)
    ensures Encode(StrictArray(elems)) == [STRICT_ARRAY_MARKER] + BigEndian4(|elems| % TWO_TO_THE_32) + EncodeElems(elems)
  {}

  ghost function Behind(values: seq<Value>, r: AllDecoded): AllDecoded {
    match r
    case AllOk(more, refs) => AllOk(values + more, refs)
    case AllErr(_, _) => r
  }
}
