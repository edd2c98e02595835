/**
 AMF0 values and their encoding (Adobe AMF0 specification, sections 2.2-2.5, 2.7-2.13), as
 functions on values: what the encoder writes and what the decoder makes of any bytes.

 A number is the 64-bit word of its IEEE 754 double; a string is its bytes.
 */
module Amf0 {
  import opened Bytes

  type uint64 = x: int | 0 <= x < 0x1_0000_0000_0000_0000

  const MAX_NESTING_DEPTH: nat := 32

  const NUMBER_MARKER: byte := 0x00
  const BOOLEAN_MARKER: byte := 0x01
  const STRING_MARKER: byte := 0x02
  const OBJECT_MARKER: byte := 0x03
  const NULL_MARKER: byte := 0x05
  const UNDEFINED_MARKER: byte := 0x06
  const REFERENCE_MARKER: byte := 0x07
  const ECMA_ARRAY_MARKER: byte := 0x08
  const OBJECT_END_MARKER: byte := 0x09
  const STRICT_ARRAY_MARKER: byte := 0x0A
  const DATE_MARKER: byte := 0x0B
  const LONG_STRING_MARKER: byte := 0x0C
  const AVMPLUS_MARKER: byte := 0x11

  /** A `std::map<std::string, AMFValue>` is its entries in key order. */
  datatype Property = Property(key: seq<byte>, value: Value)

  datatype Value =
    | Null
    | Undefined
    | Boolean(b: bool)
    | Number(bits: uint64)
    | String(s: seq<byte>)
    | Object(props: seq<Property>)
    | EcmaArray(props: seq<Property>)
    | StrictArray(elems: seq<Value>)
    | Array(elems: seq<Value>)
    | Date(bits: uint64)
    | Reference(index: nat)
    | TypedObject(props: seq<Property>)
    | Xml(s: seq<byte>)
    | ByteArray(s: seq<byte>)

  // ----- the order of map keys

  /** `std::string`'s order: lexicographic on unsigned bytes. */
  predicate Less(a: seq<byte>, b: seq<byte>) {
    b != [] && (a == [] || a[0] < b[0] || (a[0] == b[0] && Less(a[1..], b[1..])))
  }

  lemma {:induction false} LessTransitive(a: seq<byte>, b: seq<byte>, c: seq<byte>)
    requires Less(a, b) && Less(b, c)
    ensures Less(a, c)
  {
    if a != [] && a[0] == b[0] == c[0] {
      LessTransitive(a[1..], b[1..], c[1..]);
    }
  }

  lemma {:induction false} LessIrreflexive(a: seq<byte>)
    ensures !Less(a, a)
  {
    if a != [] {
      LessIrreflexive(a[1..]);
    }
  }

  lemma {:induction false} LessTotal(a: seq<byte>, b: seq<byte>)
    ensures a == b || Less(a, b) || Less(b, a)
  {
    if a != [] && b != [] && a[0] == b[0] {
      LessTotal(a[1..], b[1..]);
      if a[1..] == b[1..] {
        assert a == [a[0]] + a[1..] && b == [b[0]] + b[1..];
      }
    }
  }

  predicate Below(key: seq<byte>, props: seq<Property>) {
    forall p :: p in props ==> Less(key, p.key)
  }

  predicate Above(props: seq<Property>, key: seq<byte>) {
    forall p :: p in props ==> Less(p.key, key)
  }

  predicate Sorted(props: seq<Property>) {
    props == [] || (Below(props[0].key, props[1..]) && Sorted(props[1..]))
  }

  /** `properties[key] = value`. */
  function Put(props: seq<Property>, key: seq<byte>, value: Value): (r: seq<Property>)
    ensures forall p :: p in r ==> p in props || p == Property(key, value)
  {
    if props == [] || Less(key, props[0].key) then [Property(key, value)] + props
    else if props[0].key == key then [Property(key, value)] + props[1..]
    else [props[0]] + Put(props[1..], key, value)
  }

  lemma {:induction false} PutLast(props: seq<Property>, key: seq<byte>, value: Value)
    requires Above(props, key)
    ensures Put(props, key, value) == props + [Property(key, value)]
  {
    if props != [] {
      assert props[0] in props;
      LessIrreflexive(key);
      if Less(key, props[0].key) {
        LessTransitive(key, props[0].key, key);
      }
      PutLast(props[1..], key, value);
    }
  }

  lemma {:induction false} PutSorted(props: seq<Property>, key: seq<byte>, value: Value)
    requires Sorted(props)
    ensures Sorted(Put(props, key, value))
  {
    if props != [] {
      var tail := props[1..];
      var r := Put(props, key, value);
      LessTotal(key, props[0].key);
      if Less(key, props[0].key) {
        forall p | p in props ensures Less(key, p.key) {
          if p in tail {
            LessTransitive(key, props[0].key, p.key);
          } else {
            assert p == props[0];
          }
        }
        assert r[1..] == props;
      } else if props[0].key == key {
        assert r[1..] == tail;
      } else {
        PutSorted(tail, key, value);
        assert r[1..] == Put(tail, key, value);
      }
    }
  }

  // ----- shapes of values

  /** Property maps are in key order, as the source's are by their type. */
  predicate Ordered(v: Value)
    decreases v
  {
    match v
    case Object(props) => Sorted(props) && PropsOrdered(props)
    case EcmaArray(props) => Sorted(props) && PropsOrdered(props)
    case StrictArray(elems) => ElemsOrdered(elems)
    case Array(elems) => ElemsOrdered(elems)
    case _ => true
  }

  predicate PropsOrdered(props: seq<Property>)
    decreases props
  {
    props == [] || (Ordered(props[0].value) && PropsOrdered(props[1..]))
  }

  predicate ElemsOrdered(elems: seq<Value>)
    decreases elems
  {
    elems == [] || (Ordered(elems[0]) && ElemsOrdered(elems[1..]))
  }

  /** The first length at which the decoder's 32-bit sum of 4 and a string length wraps. */
  const STRING_LIMIT: nat := 0xFFFF_FFFC

  /** Keys in map order, counts that their length fields can announce, and strings shorter than `limit`. */
  predicate Encodable(v: Value, limit: nat)
    decreases v
  {
    match v
    case String(s) => |s| < limit
    case Object(props) => Sorted(props) && EncodableProps(props, limit)
    case EcmaArray(props) => Sorted(props) && EncodableProps(props, limit)
    case StrictArray(elems) => |elems| < 0x1_0000_0000 && EncodableElems(elems, limit)
    case Array(elems) => |elems| < 0x1_0000_0000 && EncodableElems(elems, limit)
    case _ => true
  }

  predicate EncodableProps(props: seq<Property>, limit: nat)
    decreases props
  {
    props == [] || (Encodable(props[0].value, limit) && EncodableProps(props[1..], limit))
  }

  predicate EncodableElems(elems: seq<Value>, limit: nat)
    decreases elems
  {
    elems == [] || (Encodable(elems[0], limit) && EncodableElems(elems[1..], limit))
  }

  /** Every key fits its 16-bit length field. */
  predicate KeysFit(v: Value)
    decreases v
  {
    match v
    case Object(props) => PropsFit(props)
    case EcmaArray(props) => PropsFit(props)
    case StrictArray(elems) => ElemsFit(elems)
    case Array(elems) => ElemsFit(elems)
    case _ => true
  }

  predicate PropsFit(props: seq<Property>)
    decreases props
  {
    props == [] || (|props[0].key| < 0x10000 && KeysFit(props[0].value) && PropsFit(props[1..]))
  }

  predicate ElemsFit(elems: seq<Value>)
    decreases elems
  {
    elems == [] || (KeysFit(elems[0]) && ElemsFit(elems[1..]))
  }

  /** How deep the value's encoding nests below its own marker. */
  function Depth(v: Value): nat
    decreases v
  {
    match v
    case Object(props) => PropsDepth(props)
    case EcmaArray(props) => PropsDepth(props)
    case StrictArray(elems) => ElemsDepth(elems)
    case Array(elems) => ElemsDepth(elems)
    case _ => 0
  }

  function PropsDepth(props: seq<Property>): nat
    decreases props
  {
    if props == [] then 0 else Max(1 + Depth(props[0].value), PropsDepth(props[1..]))
  }

  function ElemsDepth(elems: seq<Value>): nat
    decreases elems
  {
    if elems == [] then 0 else Max(1 + Depth(elems[0]), ElemsDepth(elems[1..]))
  }

  /** What a sender can check: fields that fit, strings short enough, and no deeper than the limit. */
  predicate Fits(v: Value, depth: nat) {
    Encodable(v, STRING_LIMIT) && KeysFit(v) && depth + Depth(v) <= MAX_NESTING_DEPTH
  }

  /** What becomes of a value on its way over the wire: both object forms are objects, both array forms strict arrays, the rest null. */
  function Norm(v: Value): Value
    decreases v
  {
    match v
    case Object(props) => Object(NormProps(props))
    case EcmaArray(props) => Object(NormProps(props))
    case StrictArray(elems) => StrictArray(NormElems(elems))
    case Array(elems) => StrictArray(NormElems(elems))
    case Null => v
    case Undefined => v
    case Boolean(_) => v
    case Number(_) => v
    case String(_) => v
    case _ => Null
  }

  function NormProps(props: seq<Property>): (r: seq<Property>)
    ensures |r| == |props| && forall i :: 0 <= i < |props| ==> r[i].key == props[i].key
    decreases props
  {
    if props == [] then [] else [Property(props[0].key, Norm(props[0].value))] + NormProps(props[1..])
  }

  function NormElems(elems: seq<Value>): (r: seq<Value>)
    ensures |r| == |elems|
    decreases elems
  {
    if elems == [] then [] else [Norm(elems[0])] + NormElems(elems[1..])
  }

  /** How many entries decoding the value's encoding adds to the reference table. */
  function References(v: Value): nat
    decreases v
  {
    match v
    case Object(props) => PropsReferences(props) + 1
    case EcmaArray(props) => PropsReferences(props) + 1
    case StrictArray(elems) => ElemsReferences(elems) + 1
    case Array(elems) => ElemsReferences(elems) + 1
    case _ => 0
  }

  function PropsReferences(props: seq<Property>): nat
    decreases props
  {
    if props == [] then 0 else References(props[0].value) + PropsReferences(props[1..])
  }

  function ElemsReferences(elems: seq<Value>): nat
    decreases elems
  {
    if elems == [] then 0 else References(elems[0]) + ElemsReferences(elems[1..])
  }

  // ----- encoding

  function BigEndian8(v: uint64): (b: seq<byte>)
    ensures |b| == 8
  {
    BigEndian4(v / TWO_TO_THE_32) + BigEndian4(v % TWO_TO_THE_32)
  }

  function FromBigEndian8(b: seq<byte>): uint64
    requires |b| >= 8
  {
    FromBigEndian4(b) * TWO_TO_THE_32 + FromBigEndian4(b[4..])
  }

  lemma BigEndian8Inverse(v: uint64, rest: seq<byte>)
    ensures FromBigEndian8(BigEndian8(v) + rest) == v
  {
    var b := BigEndian8(v) + rest;
    assert b == BigEndian4(v / TWO_TO_THE_32) + b[4..];
    assert b[4..] == BigEndian4(v % TWO_TO_THE_32) + rest;
    BigEndian4Inverse(v / TWO_TO_THE_32, b[4..]);
    BigEndian4Inverse(v % TWO_TO_THE_32, rest);
  }

  function EncodeString(s: seq<byte>): seq<byte> {
    if |s| > 65535 then [LONG_STRING_MARKER] + BigEndian4(|s| % TWO_TO_THE_32) + s
    else [STRING_MARKER] + BigEndian2(|s|) + s
  }

  function Encode(v: Value): (b: seq<byte>)
    ensures b != [] && b[0] != OBJECT_END_MARKER
    decreases v
  {
    match v
    case Null => [NULL_MARKER]
    case Undefined => [UNDEFINED_MARKER]
    case Boolean(b) => [BOOLEAN_MARKER, if b then 1 else 0]
    case Number(bits) => [NUMBER_MARKER] + BigEndian8(bits)
    case String(s) => EncodeString(s)
    case Object(props) => [OBJECT_MARKER] + EncodeProps(props) + [0, 0, OBJECT_END_MARKER]
    case EcmaArray(props) => [OBJECT_MARKER] + EncodeProps(props) + [0, 0, OBJECT_END_MARKER]
    case StrictArray(elems) => [STRICT_ARRAY_MARKER] + BigEndian4(|elems| % TWO_TO_THE_32) + EncodeElems(elems)
    case Array(elems) => [STRICT_ARRAY_MARKER] + BigEndian4(|elems| % TWO_TO_THE_32) + EncodeElems(elems)
    case _ => [NULL_MARKER]
  }

  function EncodeProp(p: Property): seq<byte>
    decreases p
  {
    BigEndian2(|p.key| % 0x10000) + p.key + Encode(p.value)
  }

  function EncodeProps(props: seq<Property>): seq<byte>
    decreases props
  {
    if props == [] then [] else EncodeProp(props[0]) + EncodeProps(props[1..])
  }

  function EncodeElems(elems: seq<Value>): seq<byte>
    decreases elems
  {
    if elems == [] then [] else Encode(elems[0]) + EncodeElems(elems[1..])
  }

  // ----- decoding

  /** `Amf3` and `OutOfBounds` stand for what the model does not follow further: AMF3 data, and a read past the buffer. */
  datatype ErrorCode = UnexpectedEnd | InvalidType | InvalidReference | NestingTooDeep | Amf3 | OutOfBounds

  /** A decoded value, the bytes it took, and the length of the reference table afterwards. */
  datatype Decoded = Ok(value: Value, used: nat, refs: nat) | Err(code: ErrorCode, refs: nat)

  datatype PropsDecoded = PropsOk(props: seq<Property>, used: nat, refs: nat) | PropsErr(code: ErrorCode, refs: nat)

  datatype ElemsDecoded = ElemsOk(elems: seq<Value>, used: nat, refs: nat) | ElemsErr(code: ErrorCode, refs: nat)

  /** The 32-bit sum `4 + strLength` of the source wraps around, in the check and in the count of bytes used. */
  function DecodeLongString(d: seq<byte>, refs: nat): (r: Decoded)
    ensures r.Ok? ==> 1 <= r.used <= |d| + 1
  {
    if |d| < 4 then Err(UnexpectedEnd, refs)
    else
      var n := FromBigEndian4(d);
      if |d| < (4 + n) % TWO_TO_THE_32 then Err(UnexpectedEnd, refs)
      else if |d| < 4 + n then Err(OutOfBounds, refs)
      else Ok(String(d[4..4 + n]), 1 + (4 + n) % TWO_TO_THE_32, refs)
  }

  function DecodeString(d: seq<byte>, refs: nat): (r: Decoded)
    ensures r.Ok? ==> r.used <= |d| + 1
  {
    if |d| < 2 then Err(UnexpectedEnd, refs)
    else
      var n := FromBigEndian2(d);
      if |d| < 2 + n then Err(UnexpectedEnd, refs) else Ok(String(d[2..2 + n]), 3 + n, refs)
  }

  function DecodeValue(d: seq<byte>, depth: nat, refs: nat): (r: Decoded)
    ensures r.Ok? ==> 1 <= r.used <= |d|
    decreases |d|, 0
  {
    if depth > MAX_NESTING_DEPTH then Err(NestingTooDeep, refs)
    else if d == [] then Err(UnexpectedEnd, refs)
    else
      var marker := d[0];
      var body := d[1..];
      if marker == NUMBER_MARKER then
        if |body| < 8 then Err(UnexpectedEnd, refs) else Ok(Number(FromBigEndian8(body)), 9, refs)
      else if marker == BOOLEAN_MARKER then
        if |body| < 1 then Err(UnexpectedEnd, refs) else Ok(Boolean(body[0] != 0), 2, refs)
      else if marker == STRING_MARKER then DecodeString(body, refs)
      else if marker == OBJECT_MARKER then ObjectFrom(DecodeProps(body, [], depth, refs))
      else if marker == NULL_MARKER then Ok(Null, 1, refs)
      else if marker == UNDEFINED_MARKER then Ok(Undefined, 1, refs)
      else if marker == REFERENCE_MARKER then
        if |body| < 2 then Err(UnexpectedEnd, refs)
        else if FromBigEndian2(body) >= refs then Err(InvalidReference, refs)
        else Ok(Reference(FromBigEndian2(body)), 3, refs)
      else if marker == ECMA_ARRAY_MARKER then
        if |body| < 4 then Err(UnexpectedEnd, refs) else EcmaArrayFrom(DecodeProps(body[4..], [], depth, refs))
      else if marker == STRICT_ARRAY_MARKER then
        if |body| < 4 then Err(UnexpectedEnd, refs)
        else StrictArrayFrom(DecodeElems(body[4..], FromBigEndian4(body), [], depth, refs))
      else if marker == DATE_MARKER then
        if |body| < 10 then Err(UnexpectedEnd, refs) else Ok(Date(FromBigEndian8(body)), 11, refs)
      else if marker == LONG_STRING_MARKER then DecodeLongString(body, refs)
      else if marker == AVMPLUS_MARKER then Err(Amf3, refs)
      else Err(InvalidType, refs)
  }

  function ObjectFrom(r: PropsDecoded): Decoded {
    match r
    case PropsOk(props, used, refs) => Ok(Object(props), 1 + used, refs + 1)
    case PropsErr(code, refs) => Err(code, refs)
  }

  function EcmaArrayFrom(r: PropsDecoded): Decoded {
    match r
    case PropsOk(props, used, refs) => Ok(EcmaArray(props), 5 + used, refs + 1)
    case PropsErr(code, refs) => Err(code, refs)
  }

  function StrictArrayFrom(r: ElemsDecoded): Decoded {
    match r
    case ElemsOk(elems, used, refs) => Ok(StrictArray(elems), 5 + used, refs + 1)
    case ElemsErr(code, refs) => Err(code, refs)
  }

  /** The properties up to the end marker `00 00 09`, put into the map `acc` one by one. */
  function DecodeProps(d: seq<byte>, acc: seq<Property>, depth: nat, refs: nat): (r: PropsDecoded)
    ensures r.PropsOk? ==> r.used <= |d|
    decreases |d|, 1
  {
    if d == [] then PropsErr(UnexpectedEnd, refs)
    else if |d| >= 3 && d[0] == 0 && d[1] == 0 && d[2] == OBJECT_END_MARKER then PropsOk(acc, 3, refs)
    else if |d| < 2 then PropsErr(UnexpectedEnd, refs)
    else
      var n := FromBigEndian2(d);
      if |d| < 2 + n then PropsErr(UnexpectedEnd, refs)
      else
        match DecodeValue(d[2 + n..], depth + 1, refs)
        case Err(code, refs1) => PropsErr(code, refs1)
        case Ok(value, used, refs1) =>
          match DecodeProps(d[2 + n + used..], Put(acc, d[2..2 + n], value), depth, refs1)
          case PropsErr(code, refs2) => PropsErr(code, refs2)
          case PropsOk(props, more, refs2) => PropsOk(props, 2 + n + used + more, refs2)
  }

  /** At most `count` elements: an array cut short at an element boundary is shorter. */
  function DecodeElems(d: seq<byte>, count: nat, acc: seq<Value>, depth: nat, refs: nat): (r: ElemsDecoded)
    ensures r.ElemsOk? ==> r.used <= |d|
    decreases |d|, 1
  {
    if count == 0 || d == [] then ElemsOk(acc, 0, refs)
    else
      match DecodeValue(d, depth + 1, refs)
      case Err(code, refs1) => ElemsErr(code, refs1)
      case Ok(value, used, refs1) =>
        match DecodeElems(d[used..], count - 1, acc + [value], depth, refs1)
        case ElemsErr(code, refs2) => ElemsErr(code, refs2)
        case ElemsOk(elems, more, refs2) => ElemsOk(elems, used + more, refs2)
  }

  datatype AllDecoded = AllOk(values: seq<Value>, refs: nat) | AllErr(code: ErrorCode, refs: nat)

  /** Values one after the other until the bytes run out. */
  function DecodeAll(d: seq<byte>, refs: nat): AllDecoded
    decreases |d|
  {
    if d == [] then AllOk([], refs)
    else
      match DecodeValue(d, 0, refs)
      case Err(code, refs1) => AllErr(code, refs1)
      case Ok(value, used, refs1) =>
        match DecodeAll(d[used..], refs1)
        case AllErr(code, refs2) => AllErr(code, refs2)
        case AllOk(values, refs2) => AllOk([value] + values, refs2)
  }
}
