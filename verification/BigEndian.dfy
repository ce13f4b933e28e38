/** `to_be_bytes` and `from_be_bytes`: fixed-width big-endian integers, inverse both ways. */
module BigEndian {
  import opened Primitives
  import opened Arithmetic

  function Pow256(width: nat): (p: nat)
    ensures p >= 1
  {
    if width == 0 then 1 else 256 * Pow256(width - 1)
  }

  function ToBytes(value: nat, width: nat): (b: Bytes)
    ensures |b| == width
  {
    if width == 0 then [] else ToBytes(value / 256, width - 1) + [value % 256]
  }

  function FromBytes(b: Bytes): nat {
    if b == [] then 0 else 256 * FromBytes(b[..|b| - 1]) + b[|b| - 1]
  }

  lemma {:induction false} FromBytesBounded(b: Bytes)
    ensures FromBytes(b) < Pow256(|b|)
  {
    if b != [] { FromBytesBounded(b[..|b| - 1]); }
  }

  lemma {:induction false} DecodesEncoded(value: nat, width: nat)
    requires value < Pow256(width)
    ensures FromBytes(ToBytes(value, width)) == value
  {
    if width > 0 {
      DecodesEncoded(value / 256, width - 1);
      assert ToBytes(value, width)[..width - 1] == ToBytes(value / 256, width - 1);
    }
  }

  lemma {:induction false} EncodesDecoded(b: Bytes)
    ensures ToBytes(FromBytes(b), |b|) == b
  {
    if b != [] {
      EncodesDecoded(b[..|b| - 1]);
      assert b == b[..|b| - 1] + [b[|b| - 1]];
    }
  }

  /** The bytes hold the value with the most significant byte first: byte i counts multiples of 256 to the power
      of the number of bytes after it. */
  ghost predicate Holds(b: Bytes, value: nat) {
    value < Pow256(|b|) && forall i | 0 <= i < |b| :: b[i] == value / Pow256(|b| - 1 - i) % 256
  }

  lemma {:induction false} MostSignificantFirst(value: nat, width: nat, i: nat)
    requires i < width
    ensures ToBytes(value, width)[i] == value / Pow256(width - 1 - i) % 256
  {
    if i == width - 1 {
      FloorUnique(value, 1, value);
    } else {
      var rest, p := value / 256, Pow256(width - 2 - i);
      MostSignificantFirst(rest, width - 1, i);
      DivideTwice(value, 256, p);
      assert ToBytes(value, width)[i] == ToBytes(rest, width - 1)[i];
      assert Pow256(width - 1 - i) == 256 * p;
    }
  }

  lemma BytesHold(value: nat, width: nat)
    requires value < Pow256(width)
    ensures Holds(ToBytes(value, width), value)
  {
    forall i | 0 <= i < width ensures ToBytes(value, width)[i] == value / Pow256(width - 1 - i) % 256 {
      MostSignificantFirst(value, width, i);
    }
  }

  /** Both widths are written, and read, with the most significant byte first. */
  lemma U64Holds(value: U64, b: Bytes)
    requires |b| == 8
    ensures Holds(U64Bytes(value), value) && Holds(b, U64FromBytes(b))
  {
    Widths();
    BytesHold(value, 8);
    FromBytesBounded(b);
    BytesHold(U64FromBytes(b), 8);
    EncodesDecoded(b);
  }

  lemma U32Holds(value: U32, b: Bytes)
    requires |b| == 4
    ensures Holds(U32Bytes(value), value) && Holds(b, U32FromBytes(b))
  {
    Widths();
    BytesHold(value, 4);
    FromBytesBounded(b);
    BytesHold(U32FromBytes(b), 4);
    EncodesDecoded(b);
  }

  lemma DivideTwice(n: nat, a: nat, b: nat)
    requires 0 < a && 0 < b
    ensures 0 < a * b && n / a / b == n / (a * b)
  {
    MulMonotone(1, a, b);
    FloorBounds(n, a);
    FloorBounds(n / a, b);
    var q := n / a / b;
    MulMonotone(b * q, n / a, a);
    MulMonotone(n / a + 1, b * q + b, a);
    assert a * (b * q) == a * b * q && a * (b * q + b) == a * b * q + a * b && a * (n / a + 1) == a * (n / a) + a;
    FloorUnique(n, a * b, q);
  }

  lemma Widths()
    ensures Pow256(4) == 0x1_0000_0000
    ensures Pow256(8) == U64_MAX + 1
  {
    assert Pow256(2) == 0x1_0000;
    assert Pow256(4) == 256 * (256 * Pow256(2));
    assert Pow256(6) == 256 * (256 * Pow256(4));
    assert Pow256(8) == 256 * (256 * Pow256(6));
  }

  function U64Bytes(value: U64): (b: Bytes)
    ensures |b| == 8
  {
    ToBytes(value, 8)
  }

  function U32Bytes(value: U32): (b: Bytes)
    ensures |b| == 4
  {
    ToBytes(value, 4)
  }

  function U64FromBytes(b: Bytes): U64
    requires |b| == 8
  {
    Widths();
    FromBytesBounded(b);
    FromBytes(b)
  }

  function U32FromBytes(b: Bytes): U32
    requires |b| == 4
  {
    Widths();
    FromBytesBounded(b);
    FromBytes(b)
  }

  lemma U64RoundTrip(value: U64, b: Bytes)
    requires |b| == 8
    ensures U64FromBytes(U64Bytes(value)) == value
    ensures U64Bytes(U64FromBytes(b)) == b
  {
    Widths();
    DecodesEncoded(value, 8);
    EncodesDecoded(b);
  }

  lemma U32RoundTrip(value: U32, b: Bytes)
    requires |b| == 4
    ensures U32FromBytes(U32Bytes(value)) == value
    ensures U32Bytes(U32FromBytes(b)) == b
  {
    Widths();
    DecodesEncoded(value, 4);
    EncodesDecoded(b);
  }
}
