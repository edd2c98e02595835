/**
 The decoder against the format (Adobe AMF0 specification, sections 2.2-2.13): the values that any sender may put on the
 wire, byte by byte, and what each of them is read as. The server's own encoder writes only some of these forms.
 */
module Amf0Grammar {
  import opened Bytes
  import opened Amf0
  import opened Amf0RoundTrip

  /** A value as it lies on the wire. An ECMA array carries a count that is only a hint, a date a time zone nobody reads. */
  datatype Wire =
    | NumberForm(bits: uint64)
    | BooleanForm(b: byte)
    | StringForm(s: seq<byte>)
    | ObjectForm(fields: seq<Field>)
    | NullForm
    | UndefinedForm
    | ReferenceForm(index: nat)
    | EcmaArrayForm(hint: uint32, fields: seq<Field>)
    | StrictArrayForm(count: nat, elems: seq<Wire>)
    | DateForm(bits: uint64, zone: nat)
    | LongStringForm(s: seq<byte>)

  datatype Field = Field(key: seq<byte>, value: Wire)

  // ----- the format

  function Octets(w: Wire): (b: seq<byte>)
    ensures b != [] && b[0] != 9
    decreases w
  {
    match w
    case NumberForm(bits) => [0x00] + BigEndian8(bits)
    case BooleanForm(b) => [0x01, b]
    case StringForm(s) => [0x02] + BigEndian2(|s|) + s
    case ObjectForm(fields) => [0x03] + FieldOctets(fields) + [0, 0, 9]
    case NullForm => [0x05]
    case UndefinedForm => [0x06]
    case ReferenceForm(index) => [0x07] + BigEndian2(index)
    case EcmaArrayForm(hint, fields) => [0x08] + BigEndian4(hint) + FieldOctets(fields) + [0, 0, 9]
    case StrictArrayForm(count, elems) => [0x0A] + BigEndian4(count) + ElemOctets(elems)
    case DateForm(bits, zone) => [0x0B] + BigEndian8(bits) + BigEndian2(zone)
    case LongStringForm(s) => [0x0C] + BigEndian4(|s|) + s
  }

  function FieldOctets(fields: seq<Field>): seq<byte>
    decreases fields
  {
    if fields == [] then []
    else BigEndian2(|fields[0].key|) + fields[0].key + Octets(fields[0].value) + FieldOctets(fields[1..])
  }

  function ElemOctets(elems: seq<Wire>): seq<byte>
    decreases elems
  {
    if elems == [] then [] else Octets(elems[0]) + ElemOctets(elems[1..])
  }

  // ----- the meaning

  function Meaning(w: Wire): Value
    decreases w
  {
    match w
    case NumberForm(bits) => Number(bits)
    case BooleanForm(b) => Boolean(b != 0)
    case StringForm(s) => String(s)
    case ObjectForm(fields) => Object(Collected(fields, []))
    case NullForm => Null
    case UndefinedForm => Undefined
    case ReferenceForm(index) => Reference(index)
    case EcmaArrayForm(_, fields) => EcmaArray(Collected(fields, []))
    case StrictArrayForm(_, elems) => StrictArray(Meanings(elems))
    case DateForm(bits, _) => Date(bits)
    case LongStringForm(s) => String(s)
  }

  /** The fields, one after the other, put into a map. */
  function Collected(fields: seq<Field>, acc: seq<Property>): seq<Property>
    decreases fields
  {
    if fields == [] then acc else Collected(fields[1..], Put(acc, fields[0].key, Meaning(fields[0].value)))
  }

  function Meanings(elems: seq<Wire>): seq<Value>
    decreases elems
  {
    if elems == [] then [] else [Meaning(elems[0])] + Meanings(elems[1..])
  }

  /** What a map holds under a key. */
  function Lookup(props: seq<Property>, key: seq<byte>): seq<Value> {
    if props == [] then [] else if props[0].key == key then [props[0].value] else Lookup(props[1..], key)
  }

  /** Putting a key replaces what the map held under it, and nothing else. */
  lemma {:induction false} PutReplaces(props: seq<Property>, key: seq<byte>, value: Value, other: seq<byte>)
    ensures Lookup(Put(props, key, value), other) == if other == key then [value] else Lookup(props, other)
  {
    hide Less;
    if props != [] && !Less(key, props[0].key) && props[0].key != key {
      PutReplaces(props[1..], key, value, other);
    }
  }

  /** The last value sent under a key. */
  function LastUnder(fields: seq<Field>, key: seq<byte>): seq<Value> {
    if fields == [] then []
    else if fields[|fields| - 1].key == key then [Meaning(fields[|fields| - 1].value)]
    else LastUnder(fields[..|fields| - 1], key)
  }

  lemma {:induction false} CollectedLast(fields: seq<Field>, f: Field, acc: seq<Property>)
    ensures Collected(fields + [f], acc) == Put(Collected(fields, acc), f.key, Meaning(f.value))
    decreases fields
  {
    hide Put, Meaning;
    if fields == [] {
      assert (fields + [f])[1..] == [];
    } else {
      assert (fields + [f])[1..] == fields[1..] + [f];
      CollectedLast(fields[1..], f, Put(acc, fields[0].key, Meaning(fields[0].value)));
    }
  }

  /** The map of an object holds, in key order, the last value sent under each key. */
  lemma {:induction false} CollectedHolds(fields: seq<Field>, key: seq<byte>)
    ensures Sorted(Collected(fields, [])) && Lookup(Collected(fields, []), key) == LastUnder(fields, key)
    decreases |fields|
  {
    hide Put, Meaning, Sorted;
    if fields == [] {
      NothingSorted();
    } else {
      var front, f := fields[..|fields| - 1], fields[|fields| - 1];
      assert fields == front + [f];
      CollectedHolds(front, key);
      CollectedLast(front, f, []);
      PutSorted(Collected(front, []), f.key, Meaning(f.value));
      PutReplaces(Collected(front, []), f.key, Meaning(f.value), key);
    }
  }

  lemma NothingSorted()
    ensures Sorted([])
  {}

  // ----- what a sender may send

  /** How many entries of the reference table a value makes. */
  function Entries(w: Wire): nat
    decreases w
  {
    match w
    case ObjectForm(fields) => FieldEntries(fields) + 1
    case EcmaArrayForm(_, fields) => FieldEntries(fields) + 1
    case StrictArrayForm(_, elems) => ElemEntries(elems) + 1
    case _ => 0
  }

  function FieldEntries(fields: seq<Field>): nat
    decreases fields
  {
    if fields == [] then 0 else Entries(fields[0].value) + FieldEntries(fields[1..])
  }

  function ElemEntries(elems: seq<Wire>): nat
    decreases elems
  {
    if elems == [] then 0 else Entries(elems[0]) + ElemEntries(elems[1..])
  }

  function Nesting(w: Wire): nat
    decreases w
  {
    match w
    case ObjectForm(fields) => FieldNesting(fields)
    case EcmaArrayForm(_, fields) => FieldNesting(fields)
    case StrictArrayForm(_, elems) => ElemNesting(elems)
    case _ => 0
  }

  function FieldNesting(fields: seq<Field>): nat
    decreases fields
  {
    if fields == [] then 0 else Max(1 + Nesting(fields[0].value), FieldNesting(fields[1..]))
  }

  function ElemNesting(elems: seq<Wire>): nat
    decreases elems
  {
    if elems == [] then 0 else Max(1 + Nesting(elems[0]), ElemNesting(elems[1..]))
  }

  /**
   Lengths that fit their fields and references to entries made before. A strict array may have fewer elements than it
   announces only if the bytes end with it.
   */
  predicate Legal(w: Wire, refs: nat, last: bool)
    decreases w
  {
    match w
    case StringForm(s) => |s| < 0x10000
    case ObjectForm(fields) => FieldsLegal(fields, refs)
    case ReferenceForm(index) => index < refs && index < 0x10000
    case EcmaArrayForm(_, fields) => FieldsLegal(fields, refs)
    case StrictArrayForm(count, elems) =>
      count < 0x1_0000_0000 && (|elems| == count || (|elems| < count && last)) && ElemsLegal(elems, refs, last)
    case DateForm(_, zone) => zone < 0x10000
    case LongStringForm(s) => |s| < 0xFFFF_FFFC
    case _ => true
  }

  predicate FieldsLegal(fields: seq<Field>, refs: nat)
    decreases fields
  {
    fields == []
    || (|fields[0].key| < 0x10000 && Legal(fields[0].value, refs, false)
        && FieldsLegal(fields[1..], refs + Entries(fields[0].value)))
  }

  predicate ElemsLegal(elems: seq<Wire>, refs: nat, last: bool)
    decreases elems
  {
    elems == []
    || (Legal(elems[0], refs, last && |elems| == 1) && ElemsLegal(elems[1..], refs + Entries(elems[0]), last))
  }

  // ----- one turn of each loop, on any bytes

  lemma ByMarker(d: seq<byte>, depth: nat, refs: nat)
    requires depth <= MAX_NESTING_DEPTH && d != []
    ensures d[0] == 3 ==> DecodeValue(d, depth, refs) == ObjectFrom(DecodeProps(d[1..], [], depth, refs))
    ensures d[0] == 8 && |d| >= 5 ==> DecodeValue(d, depth, refs) == EcmaArrayFrom(DecodeProps(d[1..][4..], [], depth, refs))
    ensures d[0] == 10 && |d| >= 5 ==>
              DecodeValue(d, depth, refs)
                == StrictArrayFrom(DecodeElems(d[1..][4..], FromBigEndian4(d[1..]), [], depth, refs))
    ensures d[0] == 2 ==> DecodeValue(d, depth, refs) == DecodeString(d[1..], refs)
    ensures d[0] == 12 ==> DecodeValue(d, depth, refs) == DecodeLongString(d[1..], refs)
    ensures d[0] == 7 && |d| >= 3 ==>
              DecodeValue(d, depth, refs) == var i := FromBigEndian2(d[1..]); if i >= refs then Err(InvalidReference, refs) else Ok(Reference(i), 3, refs)
    ensures d[0] == 11 && |d| >= 11 ==> DecodeValue(d, depth, refs) == Ok(Date(FromBigEndian8(d[1..])), 11, refs)
    ensures d[0] == 0 && |d| >= 9 ==> DecodeValue(d, depth, refs) == Ok(Number(FromBigEndian8(d[1..])), 9, refs)
  {
    hide DecodeProps, DecodeElems, DecodeString, DecodeLongString, FromBigEndian2, FromBigEndian4, FromBigEndian8;
  }

  lemma OneElem(d: seq<byte>, count: nat, acc: seq<Value>, depth: nat, refs: nat)
    requires count > 0 && d != []
    ensures var r := DecodeValue(d, depth + 1, refs);
            DecodeElems(d, count, acc, depth, refs)
              == if r.Err? then ElemsErr(r.code, r.refs)
                 else LaterElems(r.used, DecodeElems(d[r.used..], count - 1, acc + [r.value], depth, r.refs))
  {
    hide DecodeValue;
  }

  // ----- whatever is sent is read as it is meant

  /** `r` is the value `w` read in full, or the refusal of a value that nests too deep. */
  predicate Reads(r: Decoded, w: Wire, depth: nat, refs: nat) {
    if depth + Nesting(w) <= 32 then r == Ok(Meaning(w), |Octets(w)|, refs + Entries(w)) else r.Err? && r.code == NestingTooDeep
  }

  predicate ReadsFields(r: PropsDecoded, fields: seq<Field>, acc: seq<Property>, depth: nat, refs: nat) {
    if depth + FieldNesting(fields) <= 32
    then r == PropsOk(Collected(fields, acc), |FieldOctets(fields)| + 3, refs + FieldEntries(fields))
    else r.PropsErr? && r.code == NestingTooDeep
  }

  predicate ReadsElems(r: ElemsDecoded, elems: seq<Wire>, acc: seq<Value>, depth: nat, refs: nat) {
    if depth + ElemNesting(elems) <= 32
    then r == ElemsOk(acc + Meanings(elems), |ElemOctets(elems)|, refs + ElemEntries(elems))
    else r.ElemsErr? && r.code == NestingTooDeep
  }

  lemma NumbersRead(w: Wire, rest: seq<byte>, depth: nat, refs: nat)
    requires w.NumberForm? || w.DateForm? || w.ReferenceForm?
    requires Legal(w, refs, rest == []) && depth <= 32
    ensures Reads(DecodeValue(Octets(w) + rest, depth, refs), w, depth, refs)
  {
    hide DecodeValue, BigEndian8, FromBigEndian8, BigEndian2, FromBigEndian2;
    var d := Octets(w) + rest;
    ByMarker(d, depth, refs);
    match w
    case NumberForm(bits) =>
      assert d[1..] == BigEndian8(bits) + rest;
      BigEndian8Inverse(bits, rest);
    case DateForm(bits, zone) =>
      assert d[1..] == BigEndian8(bits) + (BigEndian2(zone) + rest);
      BigEndian8Inverse(bits, BigEndian2(zone) + rest);
    case ReferenceForm(index) =>
      assert d[1..] == BigEndian2(index) + rest;
      BigEndian2Inverse(index, rest);
  }

  lemma StringsRead(w: Wire, rest: seq<byte>, depth: nat, refs: nat)
    requires w.StringForm? || w.LongStringForm?
    requires Legal(w, refs, rest == []) && depth <= 32
    ensures Reads(DecodeValue(Octets(w) + rest, depth, refs), w, depth, refs)
  {
    hide DecodeValue, DecodeString, DecodeLongString, BigEndian2, BigEndian4;
    var d := Octets(w) + rest;
    ByMarker(d, depth, refs);
    match w
    case StringForm(s) =>
      assert d[1..] == BigEndian2(|s|) + (s + rest);
      ShortStringReads(s, rest, refs);
    case LongStringForm(s) =>
      assert d[1..] == BigEndian4(|s|) + (s + rest);
      LongStringReads(s, rest, refs);
  }

  lemma ObjectsRead(w: Wire, rest: seq<byte>, depth: nat, refs: nat)
    requires w.ObjectForm? || w.EcmaArrayForm?
    requires depth <= 32
    requires ReadsFields(DecodeProps(FieldOctets(w.fields) + ([0, 0, 9] + rest), [], depth, refs), w.fields, [], depth, refs)
    ensures Reads(DecodeValue(Octets(w) + rest, depth, refs), w, depth, refs)
  {
    hide DecodeValue, DecodeProps, FieldOctets, Collected, BigEndian4;
    var d := Octets(w) + rest;
    ByMarker(d, depth, refs);
    match w
    case ObjectForm(fields) =>
      assert d[1..] == FieldOctets(fields) + ([0, 0, 9] + rest);
    case EcmaArrayForm(hint, fields) =>
      assert d[1..] == BigEndian4(hint) + (FieldOctets(fields) + ([0, 0, 9] + rest));
      assert d[1..][4..] == FieldOctets(fields) + ([0, 0, 9] + rest);
  }

  lemma ArraysRead(count: nat, elems: seq<Wire>, rest: seq<byte>, depth: nat, refs: nat)
    requires depth <= 32 && count < 0x1_0000_0000
    requires ReadsElems(DecodeElems(ElemOctets(elems) + rest, count, [], depth, refs), elems, [], depth, refs)
    ensures Reads(DecodeValue(Octets(StrictArrayForm(count, elems)) + rest, depth, refs), StrictArrayForm(count, elems), depth, refs)
  {
    hide DecodeValue, DecodeElems, ElemOctets, Meanings, BigEndian4, FromBigEndian4;
    var d := Octets(StrictArrayForm(count, elems)) + rest;
    ByMarker(d, depth, refs);
    assert d[1..] == BigEndian4(count) + (ElemOctets(elems) + rest);
    BigEndian4Inverse(count, ElemOctets(elems) + rest);
    assert d[1..][4..] == ElemOctets(elems) + rest;
    assert [] + Meanings(elems) == Meanings(elems);
  }

  /**
   Every value a sender may send, whatever follows it, is read as what it means, consumes exactly its own bytes and
   makes its entries in the reference table, or is refused for nesting too deep.
   */
  lemma {:induction false} SentIsRead(w: Wire, rest: seq<byte>, depth: nat, refs: nat)
    requires Legal(w, refs, rest == [])
    ensures Reads(DecodeValue(Octets(w) + rest, depth, refs), w, depth, refs)
    decreases w
  {
    if depth <= 32 {
      match w
      case NumberForm(_) => NumbersRead(w, rest, depth, refs);
      case DateForm(_, _) => NumbersRead(w, rest, depth, refs);
      case ReferenceForm(_) => NumbersRead(w, rest, depth, refs);
      case StringForm(_) => StringsRead(w, rest, depth, refs);
      case LongStringForm(_) => StringsRead(w, rest, depth, refs);
      case ObjectForm(fields) => FieldsRead(fields, [], rest, depth, refs); ObjectsRead(w, rest, depth, refs);
      case EcmaArrayForm(_, fields) => FieldsRead(fields, [], rest, depth, refs); ObjectsRead(w, rest, depth, refs);
      case StrictArrayForm(count, elems) => ElemsRead(count, elems, [], rest, depth, refs); ArraysRead(count, elems, rest, depth, refs);
      case BooleanForm(_) =>
      case NullForm =>
      case UndefinedForm =>
    }
  }

  /** How a field lies at the front of the bytes. */
  lemma FieldLayout(f: Field, later: seq<byte>)
    requires |f.key| < 0x10000
    ensures var d := BigEndian2(|f.key|) + f.key + Octets(f.value) + later;
            && |d| >= 3 && !AtEndMarker(d)
            && FromBigEndian2(d) == |f.key| && |d| >= 2 + |f.key| && d[2..2 + |f.key|] == f.key
            && d[2 + |f.key|..] == Octets(f.value) + later
            && d[2 + |f.key| + |Octets(f.value)|..] == later
  {
    hide Octets, FromBigEndian2, BigEndian2;
    var d := BigEndian2(|f.key|) + f.key + Octets(f.value) + later;
    assert d == BigEndian2(|f.key|) + (f.key + Octets(f.value) + later);
    BigEndian2Inverse(|f.key|, f.key + Octets(f.value) + later);
    if |f.key| == 0 {
      assert d[2] == Octets(f.value)[0];
    } else {
      NonzeroPrefix(d);
    }
  }

  lemma UnfoldFields(fields: seq<Field>, acc: seq<Property>)
    requires fields != []
    ensures FieldOctets(fields) == BigEndian2(|fields[0].key|) + fields[0].key + Octets(fields[0].value) + FieldOctets(fields[1..])
    ensures Collected(fields, acc) == Collected(fields[1..], Put(acc, fields[0].key, Meaning(fields[0].value)))
    ensures FieldNesting(fields) == Max(1 + Nesting(fields[0].value), FieldNesting(fields[1..]))
    ensures FieldEntries(fields) == Entries(fields[0].value) + FieldEntries(fields[1..])
  {
    hide Octets, Meaning, Nesting, Entries, Put;
  }

  lemma FieldsStep(fields: seq<Field>, acc: seq<Property>, end: seq<byte>, depth: nat, refs: nat)
    requires fields != [] && |fields[0].key| < 0x10000
    requires Reads(DecodeValue(Octets(fields[0].value) + (FieldOctets(fields[1..]) + end), depth + 1, refs), fields[0].value, depth + 1, refs)
    requires var acc1 := Put(acc, fields[0].key, Meaning(fields[0].value)); var refs1 := refs + Entries(fields[0].value);
             ReadsFields(DecodeProps(FieldOctets(fields[1..]) + end, acc1, depth, refs1), fields[1..], acc1, depth, refs1)
    ensures ReadsFields(DecodeProps(FieldOctets(fields) + end, acc, depth, refs), fields, acc, depth, refs)
  {
    hide DecodeValue, DecodeProps, Octets, FieldOctets, Collected, Meaning, Nesting, FieldNesting, Entries, FieldEntries, Put, AtEndMarker;
    UnfoldFields(fields, acc);
    var f := fields[0];
    var later := FieldOctets(fields[1..]) + end;
    FieldLayout(f, later);
    var d := BigEndian2(|f.key|) + f.key + Octets(f.value) + later;
    assert FieldOctets(fields) + end == d;
    OneProp(d, acc, depth, refs);
  }

  lemma {:induction false} FieldsRead(fields: seq<Field>, acc: seq<Property>, rest: seq<byte>, depth: nat, refs: nat)
    requires FieldsLegal(fields, refs) && depth <= 32
    ensures ReadsFields(DecodeProps(FieldOctets(fields) + ([0, 0, 9] + rest), acc, depth, refs), fields, acc, depth, refs)
    decreases fields
  {
    hide DecodeValue, Octets, Meaning, Entries, Nesting, Legal, Put;
    var end: seq<byte> := [0, 0, 9] + rest;
    if fields == [] {
      assert FieldOctets(fields) + end == end;
    } else {
      hide DecodeProps, FieldOctets, ReadsFields, Reads;
      var f := fields[0];
      SentIsRead(f.value, FieldOctets(fields[1..]) + end, depth + 1, refs);
      FieldsRead(fields[1..], Put(acc, f.key, Meaning(f.value)), rest, depth, refs + Entries(f.value));
      FieldsStep(fields, acc, end, depth, refs);
    }
  }

  lemma UnfoldElemForms(elems: seq<Wire>)
    requires elems != []
    ensures ElemOctets(elems) == Octets(elems[0]) + ElemOctets(elems[1..])
    ensures Meanings(elems) == [Meaning(elems[0])] + Meanings(elems[1..])
    ensures ElemNesting(elems) == Max(1 + Nesting(elems[0]), ElemNesting(elems[1..]))
    ensures ElemEntries(elems) == Entries(elems[0]) + ElemEntries(elems[1..])
  {
    hide Octets, Meaning, Nesting, Entries;
  }

  lemma ElemFormsStep(count: nat, elems: seq<Wire>, acc: seq<Value>, rest: seq<byte>, depth: nat, refs: nat)
    requires elems != [] && count > 0
    requires Reads(DecodeValue(Octets(elems[0]) + (ElemOctets(elems[1..]) + rest), depth + 1, refs), elems[0], depth + 1, refs)
    requires var acc1 := acc + [Meaning(elems[0])]; var refs1 := refs + Entries(elems[0]);
             ReadsElems(DecodeElems(ElemOctets(elems[1..]) + rest, count - 1, acc1, depth, refs1), elems[1..], acc1, depth, refs1)
    ensures ReadsElems(DecodeElems(ElemOctets(elems) + rest, count, acc, depth, refs), elems, acc, depth, refs)
  {
    hide DecodeValue, DecodeElems, Octets, ElemOctets, Meaning, Meanings, Nesting, ElemNesting, Entries, ElemEntries;
    UnfoldElemForms(elems);
    var later := ElemOctets(elems[1..]) + rest;
    var d := Octets(elems[0]) + later;
    assert ElemOctets(elems) + rest == d && d[|Octets(elems[0])|..] == later;
    OneElem(d, count, acc, depth, refs);
    assert acc + [Meaning(elems[0])] + Meanings(elems[1..]) == acc + Meanings(elems);
  }

  lemma {:induction false} ElemsRead(count: nat, elems: seq<Wire>, acc: seq<Value>, rest: seq<byte>, depth: nat, refs: nat)
    requires (|elems| == count || (|elems| < count && rest == [])) && ElemsLegal(elems, refs, rest == []) && depth <= 32
    ensures ReadsElems(DecodeElems(ElemOctets(elems) + rest, count, acc, depth, refs), elems, acc, depth, refs)
    decreases elems
  {
    hide DecodeValue, Octets, Meaning, Entries, Nesting, Legal;
    if elems == [] {
      assert acc + [] == acc && ElemOctets(elems) + rest == rest;
    } else {
      NothingFollows(elems[1..], rest);
      hide DecodeElems, ElemOctets, ReadsElems, Reads;
      SentIsRead(elems[0], ElemOctets(elems[1..]) + rest, depth + 1, refs);
      ElemsRead(count - 1, elems[1..], acc + [Meaning(elems[0])], rest, depth, refs + Entries(elems[0]));
      ElemFormsStep(count, elems, acc, rest, depth, refs);
    }
  }

  lemma NothingFollows(elems: seq<Wire>, rest: seq<byte>)
    ensures ElemOctets(elems) + rest == [] <==> elems == [] && rest == []
  {}

  // ----- whatever is read was sent

  /** `w` lies at the front of `d` and is all that was read. */
  predicate Sent(w: Wire, d: seq<byte>, depth: nat, refs: nat, used: nat) {
    used <= |d| && Octets(w) == d[..used] && Legal(w, refs, used == |d|) && depth + Nesting(w) <= 32
  }

  predicate SentFields(fields: seq<Field>, d: seq<byte>, depth: nat, refs: nat, used: nat) {
    used <= |d| && FieldOctets(fields) + [0, 0, 9] == d[..used] && FieldsLegal(fields, refs) && depth + FieldNesting(fields) <= 32
  }

  predicate SentElems(elems: seq<Wire>, count: nat, d: seq<byte>, depth: nat, refs: nat, used: nat) {
    && used <= |d| && ElemOctets(elems) == d[..used] && ElemsLegal(elems, refs, used == |d|)
    && (|elems| == count || (|elems| < count && used == |d|)) && depth + ElemNesting(elems) <= 32
  }

  lemma SentEntries(w: Wire, d: seq<byte>, depth: nat, refs: nat)
    requires DecodeValue(d, depth, refs).Ok? && Sent(w, d, depth, refs, DecodeValue(d, depth, refs).used)
    ensures var r := DecodeValue(d, depth, refs); r.refs == refs + Entries(w) && r.value == Meaning(w)
  {
    hide DecodeValue, Octets, Legal, Meaning, Nesting, Entries;
    var used := DecodeValue(d, depth, refs).used;
    assert d == Octets(w) + d[used..];
    SentIsRead(w, d[used..], depth, refs);
  }

  /** Whatever the decoder accepts is a value that a sender may send, up to strings of nearly 4 GB. */
  lemma {:induction false} ReadIsSent(d: seq<byte>, depth: nat, refs: nat) returns (w: Wire)
    requires DecodeValue(d, depth, refs).Ok? && |d| <= 0xFFFF_FFFC
    ensures Sent(w, d, depth, refs, DecodeValue(d, depth, refs).used)
    decreases |d|, 0
  {
    var marker := d[0];
    if marker == 3 {
      ByMarker(d, depth, refs);
      var fields := FieldsWereSent(d[1..], [], depth, refs);
      w := ObjectForm(fields);
      ObjectSent(d, depth, refs, fields);
    } else if marker == 8 {
      ByMarker(d, depth, refs);
      var fields := FieldsWereSent(d[1..][4..], [], depth, refs);
      w := EcmaArrayForm(FromBigEndian4(d[1..]), fields);
      EcmaArraySent(d, depth, refs, fields);
    } else if marker == 10 {
      ByMarker(d, depth, refs);
      var count := FromBigEndian4(d[1..]);
      var elems := ElemsWereSent(d[1..][4..], count, [], depth, refs);
      w := StrictArrayForm(count, elems);
      StrictArraySent(d, depth, refs, elems);
    } else {
      w := SimpleWasSent(d, depth, refs);
    }
  }

  /** The markers the decoder knows, and the least it asks for behind each. */
  lemma KnownMarkers(d: seq<byte>, depth: nat, refs: nat)
    requires DecodeValue(d, depth, refs).Ok?
    ensures d != [] && depth <= 32
    ensures d[0] == 0 ==> |d| >= 9
    ensures d[0] == 1 ==> |d| >= 2 && DecodeValue(d, depth, refs).used == 2
    ensures d[0] == 5 || d[0] == 6 ==> DecodeValue(d, depth, refs).used == 1
    ensures d[0] == 7 ==> |d| >= 3
    ensures d[0] == 8 || d[0] == 10 ==> |d| >= 5
    ensures d[0] == 11 ==> |d| >= 11
    ensures d[0] <= 12 && d[0] != 4 && d[0] != 9
  {
    hide DecodeProps, DecodeElems, FromBigEndian2, FromBigEndian4, FromBigEndian8, DecodeString, DecodeLongString;
  }

  lemma SimpleWasSent(d: seq<byte>, depth: nat, refs: nat) returns (w: Wire)
    requires DecodeValue(d, depth, refs).Ok? && |d| <= 0xFFFF_FFFC && d[0] != 3 && d[0] != 8 && d[0] != 10
    ensures Sent(w, d, depth, refs, DecodeValue(d, depth, refs).used)
  {
    KnownMarkers(d, depth, refs);
    ByMarker(d, depth, refs);
    hide DecodeValue, FromBigEndian2, FromBigEndian4, BigEndian2, BigEndian4, BigEndian8, FromBigEndian8;
    var marker, body := d[0], d[1..];
    if marker == 2 || marker == 12 {
      w := StringWasSent(d, depth, refs);
    } else if marker == 7 || marker == 11 || marker == 0 {
      w := NumberWasSent(d, depth, refs);
    } else if marker == 1 {
      w := BooleanForm(body[0]);
      assert d[..2] == [0x01, body[0]];
    } else if marker == 5 {
      w := NullForm;
      assert d[..1] == [5];
    } else {
      w := UndefinedForm;
      assert d[..1] == [6];
    }
  }

  lemma ShortStringWasSent(d: seq<byte>)
    requires d != [] && d[0] == 2 && |d| >= 3 && |d| >= 3 + FromBigEndian2(d[1..])
    ensures var n := FromBigEndian2(d[1..]); Octets(StringForm(d[1..][2..2 + n])) == d[..3 + n]
  {
    hide BigEndian2;
    var body := d[1..];
    FromBigEndian2Inverse(body);
    var n := FromBigEndian2(body);
    assert d[..3 + n] == [2] + body[..2] + body[2..2 + n];
  }

  lemma LongStringWasSent(d: seq<byte>)
    requires d != [] && d[0] == 12 && |d| >= 5 && |d| >= 5 + FromBigEndian4(d[1..])
    ensures var n := FromBigEndian4(d[1..]); Octets(LongStringForm(d[1..][4..4 + n])) == d[..5 + n]
  {
    hide BigEndian4, FromBigEndian4;
    var body := d[1..];
    FromBigEndian4Inverse(body);
    var n := FromBigEndian4(body);
    assert d[..5 + n] == [12] + body[..4] + body[4..4 + n];
  }

  lemma StringWasSent(d: seq<byte>, depth: nat, refs: nat) returns (w: Wire)
    requires DecodeValue(d, depth, refs).Ok? && |d| <= 0xFFFF_FFFC && (d[0] == 2 || d[0] == 12)
    ensures Sent(w, d, depth, refs, DecodeValue(d, depth, refs).used)
  {
    KnownMarkers(d, depth, refs);
    ByMarker(d, depth, refs);
    hide DecodeValue, FromBigEndian4, FromBigEndian2, Octets;
    if d[0] == 2 {
      w := StringForm(d[1..][2..2 + FromBigEndian2(d[1..])]);
      ShortStringWasSent(d);
    } else {
      w := LongStringForm(d[1..][4..4 + FromBigEndian4(d[1..])]);
      LongStringWasSent(d);
    }
  }

  lemma NumberWasSent(d: seq<byte>, depth: nat, refs: nat) returns (w: Wire)
    requires DecodeValue(d, depth, refs).Ok? && (d[0] == 0 || d[0] == 7 || d[0] == 11)
    ensures Sent(w, d, depth, refs, DecodeValue(d, depth, refs).used)
  {
    KnownMarkers(d, depth, refs);
    ByMarker(d, depth, refs);
    hide DecodeValue, FromBigEndian2, BigEndian2, BigEndian8, FromBigEndian8;
    var body := d[1..];
    if d[0] == 0 {
      FromBigEndian8Inverse(body);
      w := NumberForm(FromBigEndian8(body));
      assert d[..9] == [0] + body[..8];
    } else if d[0] == 7 {
      FromBigEndian2Inverse(body);
      w := ReferenceForm(FromBigEndian2(body));
      assert d[..3] == [7] + body[..2];
    } else {
      FromBigEndian8Inverse(body);
      FromBigEndian2Inverse(body[8..]);
      w := DateForm(FromBigEndian8(body), FromBigEndian2(body[8..]));
      assert d[..11] == [11] + body[..8] + body[8..][..2];
    }
  }

  lemma FromBigEndian8Inverse(b: seq<byte>)
    requires |b| >= 8
    ensures BigEndian8(FromBigEndian8(b)) == b[..8]
  {
    hide FromBigEndian4, BigEndian4;
    FromBigEndian4Inverse(b);
    FromBigEndian4Inverse(b[4..]);
    assert b[..4] + b[4..][..4] == b[..8];
  }

  lemma ObjectSent(d: seq<byte>, depth: nat, refs: nat, fields: seq<Field>)
    requires d != [] && d[0] == 3 && depth <= 32
    requires var r := DecodeProps(d[1..], [], depth, refs); r.PropsOk? && SentFields(fields, d[1..], depth, refs, r.used)
    ensures Sent(ObjectForm(fields), d, depth, refs, DecodeValue(d, depth, refs).used)
  {
    hide DecodeProps, DecodeValue, FieldOctets, FieldsLegal, FieldNesting;
    ByMarker(d, depth, refs);
    var used := DecodeProps(d[1..], [], depth, refs).used;
    assert d[..1 + used] == [3] + d[1..][..used];
    assert [0x03] + FieldOctets(fields) + [0, 0, 9] == [0x03] + (FieldOctets(fields) + [0, 0, 9]);
  }

  lemma EcmaArraySent(d: seq<byte>, depth: nat, refs: nat, fields: seq<Field>)
    requires |d| >= 5 && d[0] == 8 && depth <= 32
    requires var r := DecodeProps(d[1..][4..], [], depth, refs); r.PropsOk? && SentFields(fields, d[1..][4..], depth, refs, r.used)
    ensures Sent(EcmaArrayForm(FromBigEndian4(d[1..]), fields), d, depth, refs, DecodeValue(d, depth, refs).used)
  {
    hide DecodeProps, DecodeValue, FieldOctets, FieldsLegal, FieldNesting, BigEndian4, FromBigEndian4;
    ByMarker(d, depth, refs);
    FromBigEndian4Inverse(d[1..]);
    var used := DecodeProps(d[1..][4..], [], depth, refs).used;
    var head := d[1..][..4];
    assert d[..5 + used] == [8] + head + d[1..][4..][..used];
    assert [0x08] + head + FieldOctets(fields) + [0, 0, 9] == [0x08] + head + (FieldOctets(fields) + [0, 0, 9]);
  }

  lemma StrictArraySent(d: seq<byte>, depth: nat, refs: nat, elems: seq<Wire>)
    requires |d| >= 5 && d[0] == 10 && depth <= 32
    requires var count := FromBigEndian4(d[1..]); var r := DecodeElems(d[1..][4..], count, [], depth, refs);
             r.ElemsOk? && SentElems(elems, count, d[1..][4..], depth, refs, r.used)
    ensures Sent(StrictArrayForm(FromBigEndian4(d[1..]), elems), d, depth, refs, DecodeValue(d, depth, refs).used)
  {
    hide DecodeElems, DecodeValue, ElemOctets, ElemsLegal, ElemNesting, BigEndian4, FromBigEndian4;
    ByMarker(d, depth, refs);
    FromBigEndian4Inverse(d[1..]);
    var used := DecodeElems(d[1..][4..], FromBigEndian4(d[1..]), [], depth, refs).used;
    assert d[..5 + used] == [10] + d[1..][..4] + d[1..][4..][..used];
  }

  lemma {:induction false} FieldsWereSent(d: seq<byte>, acc: seq<Property>, depth: nat, refs: nat) returns (fields: seq<Field>)
    requires DecodeProps(d, acc, depth, refs).PropsOk? && depth <= 32 && |d| <= 0xFFFF_FFFC
    ensures SentFields(fields, d, depth, refs, DecodeProps(d, acc, depth, refs).used)
    decreases |d|, 1
  {
    hide DecodeValue, DecodeProps, Put, Sent, FromBigEndian2;
    if AtEndMarker(d) || |d| < 2 || |d| < 2 + FromBigEndian2(d) {
      LastProp(d, acc, depth, refs);
      fields := [];
      assert d[..3] == [0, 0, 9];
    } else {
      var n := FromBigEndian2(d);
      OneProp(d, acc, depth, refs);
      var r := DecodeValue(d[2 + n..], depth + 1, refs);
      var w := ReadIsSent(d[2 + n..], depth + 1, refs);
      SentEntries(w, d[2 + n..], depth + 1, refs);
      var later := d[2 + n + r.used..];
      var more := FieldsWereSent(later, Put(acc, d[2..2 + n], r.value), depth, r.refs);
      fields := [Field(d[2..2 + n], w)] + more;
      FieldSent(d, Field(d[2..2 + n], w), more, depth, refs, r.used, DecodeProps(later, Put(acc, d[2..2 + n], r.value), depth, r.refs).used);
    }
  }

  lemma FieldSent(d: seq<byte>, f: Field, more: seq<Field>, depth: nat, refs: nat, used: nat, usedLater: nat)
    requires |d| >= 2 && var n := FromBigEndian2(d);
             && |d| >= 2 + n + used + usedLater && f.key == d[2..2 + n] && Sent(f.value, d[2 + n..], depth + 1, refs, used)
             && usedLater >= 3 && SentFields(more, d[2 + n + used..], depth, refs + Entries(f.value), usedLater)
    ensures SentFields([f] + more, d, depth, refs, 2 + FromBigEndian2(d) + used + usedLater)
  {
    hide Octets, FieldOctets, Legal, FieldsLegal, Nesting, FieldNesting, Entries, BigEndian2;
    var fields := [f] + more;
    var n := FromBigEndian2(d);
    assert fields[1..] == more;
    FromBigEndian2Inverse(d);
    hide FromBigEndian2;
    UnfoldFields(fields, []);
    FieldsLegalStep(fields, refs);
    assert d[..2] + d[2..2 + n] + d[2 + n..][..used] + d[2 + n + used..][..usedLater] == d[..2 + n + used + usedLater];
    assert FieldOctets(fields) + [0, 0, 9] == d[..2] + f.key + Octets(f.value) + (FieldOctets(more) + [0, 0, 9]);
  }

  lemma FieldsLegalStep(fields: seq<Field>, refs: nat)
    requires fields != []
    ensures FieldsLegal(fields, refs)
            <==> |fields[0].key| < 0x10000 && Legal(fields[0].value, refs, false)
                 && FieldsLegal(fields[1..], refs + Entries(fields[0].value))
  {
    hide Legal, Entries;
  }

  lemma {:induction false} ElemsWereSent(d: seq<byte>, count: nat, acc: seq<Value>, depth: nat, refs: nat) returns (elems: seq<Wire>)
    requires DecodeElems(d, count, acc, depth, refs).ElemsOk? && depth <= 32 && |d| <= 0xFFFF_FFFC
    ensures SentElems(elems, count, d, depth, refs, DecodeElems(d, count, acc, depth, refs).used)
    decreases |d|, 1
  {
    hide DecodeValue, Sent;
    if count == 0 || d == [] {
      elems := [];
    } else {
      hide DecodeElems;
      OneElem(d, count, acc, depth, refs);
      var r := DecodeValue(d, depth + 1, refs);
      var w := ReadIsSent(d, depth + 1, refs);
      SentEntries(w, d, depth + 1, refs);
      var more := ElemsWereSent(d[r.used..], count - 1, acc + [r.value], depth, r.refs);
      elems := [w] + more;
      ElemSent(d, count, w, more, depth, refs, r.used, DecodeElems(d[r.used..], count - 1, acc + [r.value], depth, r.refs).used);
    }
  }

  lemma JoinedOctets(d: seq<byte>, w: Wire, more: seq<Wire>, used: nat, usedLater: nat)
    requires used + usedLater <= |d| && Octets(w) == d[..used] && ElemOctets(more) == d[used..][..usedLater]
    ensures ElemOctets([w] + more) == d[..used + usedLater]
    ensures more != [] ==> used < |d|
  {
    NothingFollows(more, []);
    hide Octets, ElemOctets;
    assert ElemOctets(more) + [] == ElemOctets(more);
    assert ([w] + more)[1..] == more;
    UnfoldElemForms([w] + more);
    assert d[..used] + d[used..][..usedLater] == d[..used + usedLater];
  }

  lemma JoinedLegal(w: Wire, more: seq<Wire>, refs: nat, last: bool)
    requires Legal(w, refs, last && more == []) && ElemsLegal(more, refs + Entries(w), last)
    ensures ElemsLegal([w] + more, refs, last)
  {
    hide Legal, Entries;
    assert ([w] + more)[1..] == more;
  }

  lemma ElemSent(d: seq<byte>, count: nat, w: Wire, more: seq<Wire>, depth: nat, refs: nat, used: nat, usedLater: nat)
    requires count > 0 && used + usedLater <= |d| && Sent(w, d, depth + 1, refs, used)
    requires SentElems(more, count - 1, d[used..], depth, refs + Entries(w), usedLater)
    ensures SentElems([w] + more, count, d, depth, refs, used + usedLater)
  {
    hide Octets, Nesting, Entries, ElemsLegal, Legal;
    assert more == [] ==> usedLater == 0;
    hide ElemOctets, ElemNesting;
    JoinedOctets(d, w, more, used, usedLater);
    JoinedLegal(w, more, refs, used + usedLater == |d|);
    assert ([w] + more)[1..] == more;
    UnfoldElemForms([w] + more);
  }

  /**
   The decoder accepts exactly the format: bytes begin with a value it reads if and only if they begin with one that a
   sender may send and that nests no deeper than 32, and it reads that one as what it means.
   */
  lemma DecodesIff(d: seq<byte>, depth: nat, refs: nat)
    requires |d| <= 0xFFFF_FFFC
    ensures DecodeValue(d, depth, refs).Ok? <==> exists w, used: nat :: Sent(w, d, depth, refs, used)
    ensures forall w, used: nat :: Sent(w, d, depth, refs, used) ==>
              DecodeValue(d, depth, refs) == Ok(Meaning(w), used, refs + Entries(w))
  {
    hide DecodeValue, Legal, Meaning, Entries, Nesting;
    if DecodeValue(d, depth, refs).Ok? {
      var w := ReadIsSent(d, depth, refs);
    }
    forall w, used: nat | Sent(w, d, depth, refs, used)
      ensures DecodeValue(d, depth, refs) == Ok(Meaning(w), used, refs + Entries(w))
    {
      assert d == Octets(w) + d[used..];
      SentIsRead(w, d[used..], depth, refs);
    }
  }

  /** What begins with any other marker is refused as unknown, but for 11 in hexadecimal, which switches to AMF3. */
  lemma OtherMarkersRefused(d: seq<byte>, depth: nat, refs: nat)
    requires depth <= 32 && d != [] && (d[0] == 4 || d[0] == 9 || d[0] > 12)
    ensures DecodeValue(d, depth, refs) == Err(if d[0] == 0x11 then Amf3 else InvalidType, refs)
  {}

  /** How many bytes each known marker asks for before anything else, itself included. */
  function LeastBytes(marker: byte): nat {
    match marker
    case 0 => 9
    case 1 => 2
    case 2 => 3
    case 7 => 3
    case 8 => 5
    case 10 => 5
    case 11 => 11
    case 12 => 5
    case _ => 1
  }

  /** Fewer bytes than that are a premature end, and an index without an entry is an invalid reference. */
  lemma ShortOrInvalid(d: seq<byte>, depth: nat, refs: nat)
    requires depth <= 32
    ensures d == [] || |d| < LeastBytes(d[0]) ==> DecodeValue(d, depth, refs) == Err(UnexpectedEnd, refs)
    ensures |d| >= 3 && d[0] == 7 && d[1] as int * 256 + d[2] >= refs ==> DecodeValue(d, depth, refs) == Err(InvalidReference, refs)
  {
    hide DecodeProps, DecodeElems;
  }

  // ----- what the server's encoder writes

  /** A key too long for its length field is announced with the low 16 bits of its length. */
  lemma LongKeyWraps(p: Property)
    ensures |EncodeProp(p)| >= 2 && FromBigEndian2(EncodeProp(p)) == |p.key| % 0x10000
  {
    hide Encode, BigEndian2, FromBigEndian2;
    BigEndian2Inverse(|p.key| % 0x10000, p.key + Encode(p.value));
    assert EncodeProp(p) == BigEndian2(|p.key| % 0x10000) + (p.key + Encode(p.value));
  }

  /** The form in which the encoder writes a value. */
  function FormOf(v: Value): Wire
    decreases v
  {
    match v
    case Null => NullForm
    case Undefined => UndefinedForm
    case Boolean(b) => BooleanForm(if b then 1 else 0)
    case Number(bits) => NumberForm(bits)
    case String(s) => if |s| < 0x10000 then StringForm(s) else LongStringForm(s)
    case Object(props) => ObjectForm(FieldsOf(props))
    case EcmaArray(props) => ObjectForm(FieldsOf(props))
    case StrictArray(elems) => StrictArrayForm(|elems|, FormsOf(elems))
    case Array(elems) => StrictArrayForm(|elems|, FormsOf(elems))
    case _ => NullForm
  }

  function FieldsOf(props: seq<Property>): seq<Field>
    decreases props
  {
    if props == [] then [] else [Field(props[0].key, FormOf(props[0].value))] + FieldsOf(props[1..])
  }

  function FormsOf(elems: seq<Value>): seq<Wire>
    decreases elems
  {
    if elems == [] then [] else [FormOf(elems[0])] + FormsOf(elems[1..])
  }

  /** The encoder writes the format: each value in its form, byte by byte. */
  lemma {:induction false} EncoderWritesForm(v: Value)
    requires Encodable(v, 0x1_0000_0000) && KeysFit(v)
    ensures Encode(v) == Octets(FormOf(v))
    decreases v
  {
    hide BigEndian8, BigEndian4, BigEndian2, EncodeProps, EncodeElems, FieldOctets, ElemOctets;
    match v
    case Object(props) => EncoderWritesFields(props);
    case EcmaArray(props) => EncoderWritesFields(props);
    case StrictArray(elems) => EncoderWritesForms(elems);
    case Array(elems) => EncoderWritesForms(elems);
    case _ =>
  }

  lemma {:induction false} EncoderWritesFields(props: seq<Property>)
    requires EncodableProps(props, 0x1_0000_0000) && PropsFit(props)
    ensures EncodeProps(props) == FieldOctets(FieldsOf(props))
    decreases props
  {
    hide BigEndian2, Encode, Octets, FormOf, Encodable, KeysFit;
    if props != [] {
      EncoderWritesForm(props[0].value);
      EncoderWritesFields(props[1..]);
      assert FieldsOf(props)[1..] == FieldsOf(props[1..]);
      var p, later := props[0], EncodeProps(props[1..]);
      assert EncodeProps(props) == (BigEndian2(|p.key|) + p.key + Encode(p.value)) + later;
    }
  }

  lemma {:induction false} EncoderWritesForms(elems: seq<Value>)
    requires EncodableElems(elems, 0x1_0000_0000) && ElemsFit(elems)
    ensures EncodeElems(elems) == ElemOctets(FormsOf(elems)) && |FormsOf(elems)| == |elems|
    decreases elems
  {
    hide Encode, Octets, FormOf, Encodable, KeysFit;
    if elems != [] {
      EncoderWritesForm(elems[0]);
      EncoderWritesForms(elems[1..]);
      assert FormsOf(elems)[1..] == FormsOf(elems[1..]);
    }
  }

  /**
   An ECMA array, the form in which clients send metadata: whatever count it announces, it is read as the array of
   its properties, with 8 bytes beside theirs, and makes one entry in the reference table beside theirs.
   */
  lemma EcmaArrayReadsBack(props: seq<Property>, hint: uint32, rest: seq<byte>, depth: nat, refs: nat)
    requires Sorted(props) && EncodableProps(props, STRING_LIMIT) && PropsFit(props)
    ensures var r := DecodeValue([8] + BigEndian4(hint) + EncodeProps(props) + [0, 0, 9] + rest, depth, refs);
            if depth + PropsDepth(props) <= 32
            then r == Ok(EcmaArray(NormProps(props)), 8 + |EncodeProps(props)|, refs + PropsReferences(props) + 1)
            else r.Err? && r.code == NestingTooDeep
  {
    if depth <= 32 {
      EcmaArrayLayout(props, hint, rest, depth, refs);
      PropsReadBack(props, [], rest, depth, refs);
      hide DecodeValue, DecodeProps, EncodeProps, NormProps, BigEndian4, Sorted, EncodableProps, PropsFit;
      assert [] + NormProps(props) == NormProps(props);
    } else {
      TooDeep([8] + BigEndian4(hint) + EncodeProps(props) + [0, 0, 9] + rest, depth, refs);
    }
  }

  lemma EcmaArrayLayout(props: seq<Property>, hint: uint32, rest: seq<byte>, depth: nat, refs: nat)
    requires depth <= 32
    ensures DecodeValue([8] + BigEndian4(hint) + EncodeProps(props) + [0, 0, 9] + rest, depth, refs)
         == EcmaArrayFrom(DecodeProps(EncodeProps(props) + ([0, 0, OBJECT_END_MARKER] + rest), [], depth, refs))
  {
    hide DecodeValue, DecodeProps, EncodeProps, BigEndian4;
    var d := [8] + BigEndian4(hint) + EncodeProps(props) + [0, 0, 9] + rest;
    ByMarker(d, depth, refs);
    assert d[1..][4..] == EncodeProps(props) + ([0, 0, 9] + rest);
  }

  lemma TooDeep(d: seq<byte>, depth: nat, refs: nat)
    requires depth > 32
    ensures DecodeValue(d, depth, refs) == Err(NestingTooDeep, refs)
  {}
}
