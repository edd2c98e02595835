/** Bytes, the fixed-width integers of the wire formats, and their encodings. */
module Bytes {
  type byte = x: int | 0 <= x < 0x100
  type uint32 = x: int | 0 <= x < 0x1_0000_0000

  const TWO_TO_THE_32: int := 0x1_0000_0000

  /** `static_cast<uint8_t>((v >> shift) & 0xFF)` repeated: the low bytes of `v`, most significant first. */
  function BigEndian2(v: nat): (b: seq<byte>)
    ensures |b| == 2
  {
    [v / 0x100 % 0x100, v % 0x100]
  }

  function BigEndian3(v: nat): (b: seq<byte>)
    ensures |b| == 3
  {
    [v / 0x10000 % 0x100, v / 0x100 % 0x100, v % 0x100]
  }

  function BigEndian4(v: nat): (b: seq<byte>)
    ensures |b| == 4
  {
    [v / 0x100_0000 % 0x100, v / 0x10000 % 0x100, v / 0x100 % 0x100, v % 0x100]
  }

  function LittleEndian4(v: nat): (b: seq<byte>)
    ensures |b| == 4
  {
    [v % 0x100, v / 0x100 % 0x100, v / 0x10000 % 0x100, v / 0x100_0000 % 0x100]
  }

  function FromBigEndian2(b: seq<byte>): (v: nat)
    requires |b| >= 2
    ensures v < 0x10000
  {
    b[0] as int * 0x100 + b[1]
  }

  function FromBigEndian3(b: seq<byte>): (v: nat)
    requires |b| >= 3
    ensures v < 0x100_0000
  {
    b[0] as int * 0x10000 + b[1] as int * 0x100 + b[2]
  }

  function FromBigEndian4(b: seq<byte>): (v: uint32)
    requires |b| >= 4
  {
    b[0] as int * 0x100_0000 + b[1] as int * 0x10000 + b[2] as int * 0x100 + b[3]
  }

  function FromLittleEndian4(b: seq<byte>): (v: uint32)
    requires |b| >= 4
  {
    b[0] as int + b[1] as int * 0x100 + b[2] as int * 0x10000 + b[3] as int * 0x100_0000
  }

  lemma Digits(v: uint32)
    ensures v == v / 0x100_0000 * 0x100_0000 + v / 0x10000 % 0x100 * 0x10000 + v / 0x100 % 0x100 * 0x100 + v % 0x100
    ensures v / 0x100_0000 % 0x100 == v / 0x100_0000
  {
    var q1 := v / 0x100;
    var q2 := v / 0x10000;
    var q3 := v / 0x100_0000;
    assert v == q1 * 0x100 + v % 0x100;
    assert q1 == q2 * 0x100 + q1 % 0x100 by { assert q2 == q1 / 0x100; }
    assert q2 == q3 * 0x100 + q2 % 0x100 by { assert q3 == q2 / 0x100; }
  }

  /** The decoders invert the encoders on values that fit; `rest` is whatever follows on the wire. */
  lemma BigEndian2Inverse(v: nat, rest: seq<byte>)
    requires v < 0x10000
    ensures FromBigEndian2(BigEndian2(v) + rest) == v
  {}

  lemma BigEndian3Inverse(v: nat, rest: seq<byte>)
    requires v < 0x100_0000
    ensures FromBigEndian3(BigEndian3(v) + rest) == v
  {
    Digits(v);
  }

  lemma BigEndian4Inverse(v: uint32, rest: seq<byte>)
    ensures FromBigEndian4(BigEndian4(v) + rest) == v
  {
    Digits(v);
  }

  lemma LittleEndian4Inverse(v: uint32, rest: seq<byte>)
    ensures FromLittleEndian4(LittleEndian4(v) + rest) == v
  {
    Digits(v);
  }

  /** Most significant byte first, or last. */
  lemma ByteOrder()
    ensures BigEndian2(0x0102) == [1, 2] && BigEndian3(0x010203) == [1, 2, 3] && BigEndian4(0x01020304) == [1, 2, 3, 4]
    ensures LittleEndian4(0x01020304) == [4, 3, 2, 1]
  {}

  /** The encoders invert the decoders. */
  lemma FromBigEndian2Inverse(b: seq<byte>)
    requires |b| >= 2
    ensures BigEndian2(FromBigEndian2(b)) == b[..2]
  {}

  lemma FromBigEndian4Inverse(b: seq<byte>)
    requires |b| >= 4
    ensures BigEndian4(FromBigEndian4(b)) == b[..4]
  {
    var v := FromBigEndian4(b);
    assert v / 0x100 == b[0] as int * 0x10000 + b[1] as int * 0x100 + b[2];
    assert v / 0x10000 == b[0] as int * 0x100 + b[1];
    assert v / 0x100_0000 == b[0];
  }

  function Min(a: int, b: int): int {
    if a <= b then a else b
  }

  function Max(a: int, b: int): int {
    if a >= b then a else b
  }

  function Flatten(parts: seq<seq<byte>>): seq<byte> {
    if parts == [] then [] else parts[0] + Flatten(parts[1..])
  }

  lemma {:induction false} FlattenAppend(a: seq<seq<byte>>, b: seq<seq<byte>>)
    ensures Flatten(a + b) == Flatten(a) + Flatten(b)
  {
    if a == [] {
      assert a + b == b;
    } else {
      assert (a + b)[1..] == a[1..] + b;
      FlattenAppend(a[1..], b);
    }
  }
}
