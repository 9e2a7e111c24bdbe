// Integers as bytes (utils/networkEndianness.hpp).
//
// A fixed-width C++ integer is an `int` with an explicit width and signedness;
// `Wrap` is the value the type holds after an operation has overflowed it.

module Bytes {

  type Byte = b: int | 0 <= b < 256

  datatype IntType = IntType(size: nat, signed: bool)

  const UINT32 := IntType(4, false)
  const INT64 := IntType(8, true)

  function Pow256(n: nat): (p: int)
    ensures p > 0
  {
    if n == 0 then 1 else 256 * Pow256(n - 1)
  }

  predicate InRange(t: IntType, v: int) {
    if t.signed then -Pow256(t.size) <= 2 * v < Pow256(t.size) else 0 <= v < Pow256(t.size)
  }

  /** The value of type `t` congruent to `v`. */
  function Wrap(t: IntType, v: int): int {
    var image := v % Pow256(t.size);
    if t.signed && 2 * image >= Pow256(t.size) then image - Pow256(t.size) else image
  }

  /** `v >> (8 * i)`: arithmetic on a negative value, since `/` floors here. */
  function ShiftRight(v: int, i: nat): int
    decreases i
  {
    if i == 0 then v else ShiftRight(v / 256, i - 1)
  }

  /** The `n` bytes of `v` as a little-endian machine stores them. */
  function LittleEndian(v: int, n: nat): (bs: seq<Byte>)
    ensures |bs| == n
    decreases n
  {
    if n == 0 then [] else [v % 256] + LittleEndian(v / 256, n - 1)
  }

  function FromLittleEndian(bs: seq<Byte>): nat {
    if bs == [] then 0 else bs[0] + 256 * FromLittleEndian(bs[1..])
  }

  function FromBigEndian(bs: seq<Byte>): nat {
    if bs == [] then 0 else 256 * FromBigEndian(bs[..|bs| - 1]) + bs[|bs| - 1]
  }

  function Reverse<T>(s: seq<T>): (r: seq<T>)
    ensures |r| == |s|
    ensures forall i :: 0 <= i < |s| ==> r[i] == s[|s| - 1 - i]
  {
    if s == [] then [] else Reverse(s[1..]) + [s[0]]
  }

  /** The `n` bytes of `v` in network order. */
  function BigEndian(v: int, n: nat): (bs: seq<Byte>)
    ensures |bs| == n
  {
    Reverse(LittleEndian(v, n))
  }

  lemma ReverseTwice<T>(s: seq<T>)
    ensures Reverse(Reverse(s)) == s
  {
  }

  lemma {:induction false} LittleEndianByte(v: int, n: nat, i: nat)
    requires i < n
    ensures LittleEndian(v, n)[i] == ShiftRight(v, i) % 256
    decreases n
  {
    if i > 0 {
      LittleEndianByte(v / 256, n - 1, i - 1);
    }
  }

  lemma {:induction false} PowMonotone(m: nat, n: nat)
    requires m <= n
    ensures Pow256(m) <= Pow256(n)
  {
    if m < n {
      PowMonotone(m, n - 1);
    }
  }

  lemma {:induction false} BigEndianBound(bs: seq<Byte>)
    ensures FromBigEndian(bs) < Pow256(|bs|)
  {
    if bs != [] {
      BigEndianBound(bs[..|bs| - 1]);
    }
  }

  lemma {:induction false} ReversedValue(bs: seq<Byte>)
    ensures FromBigEndian(Reverse(bs)) == FromLittleEndian(bs)
  {
    if bs != [] {
      ReversedValue(bs[1..]);
      assert Reverse(bs)[..|bs| - 1] == Reverse(bs[1..]);
    }
  }

  lemma {:induction false} BytesOfValue(bs: seq<Byte>)
    ensures LittleEndian(FromLittleEndian(bs), |bs|) == bs
  {
    if bs != [] {
      BytesOfValue(bs[1..]);
      var tail := FromLittleEndian(bs[1..]);
      assert (bs[0] + 256 * tail) / 256 == tail && (bs[0] + 256 * tail) % 256 == bs[0];
    }
  }

  /** The bytes of a negative value are those of its two's complement image. */
  lemma {:induction false} BytesOfImage(v: int, n: nat)
    ensures LittleEndian(v - Pow256(n), n) == LittleEndian(v, n)
    decreases n
  {
    if n > 0 {
      BytesOfImage(v / 256, n - 1);
      assert (v - 256 * Pow256(n - 1)) / 256 == v / 256 - Pow256(n - 1);
      assert (v - 256 * Pow256(n - 1)) % 256 == v % 256;
    }
  }

  lemma {:induction false} ValueOfBytes(v: int, n: nat)
    requires -Pow256(n) <= v < Pow256(n)
    ensures FromLittleEndian(LittleEndian(v, n)) == if v < 0 then v + Pow256(n) else v
    decreases n
  {
    if n > 0 {
      ValueOfBytes(v / 256, n - 1);
      assert LittleEndian(v, n)[1..] == LittleEndian(v / 256, n - 1);
    }
  }

  lemma WrapSmall(t: IntType, v: int)
    requires 0 <= v < Pow256(t.size)
    ensures Wrap(t, v) == if t.signed && 2 * v >= Pow256(t.size) then v - Pow256(t.size) else v
    ensures InRange(t, Wrap(t, v))
    ensures LittleEndian(Wrap(t, v), t.size) == LittleEndian(v, t.size)
  {
    SmallModulus(v, Pow256(t.size));
    BytesOfImage(v, t.size);
  }

  lemma SmallModulus(v: int, m: nat)
    requires 0 <= v < m
    ensures v % m == v
  {
  }

  // ------------------------------------------------------------------------
  // swapEndianness
  // ------------------------------------------------------------------------

  /** What the loop below computes: the bytes read back in the other order. */
  function Swapped(t: IntType, value: int): int {
    Wrap(t, FromBigEndian(LittleEndian(value, t.size)))
  }

  method SwapEndianness(t: IntType, value: int) returns (result: int)
    ensures result == Swapped(t, value)
    ensures LittleEndian(result, t.size) == Reverse(LittleEndian(value, t.size))
    ensures InRange(t, result)
  {
    result := 0;
    ghost var bytes := LittleEndian(value, t.size);
    SmallModulus(0, Pow256(t.size));
    for i := 0 to t.size
      invariant result == Wrap(t, FromBigEndian(bytes[..i]))
    {
      BigEndianBound(bytes[..i]);
      PowMonotone(i, t.size - 1);
      WrapSmall(t, FromBigEndian(bytes[..i]));
      LittleEndianByte(value, t.size, i);
      assert bytes[..i + 1][..i] == bytes[..i];
      result := Wrap(t, 256 * result + ShiftRight(value, i) % 256);
    }
    assert bytes[..t.size] == bytes;
    SwapReversesBytes(t, value);
  }

  /** Byte reversal, on signed values as well. */
  lemma SwapReversesBytes(t: IntType, value: int)
    ensures LittleEndian(Swapped(t, value), t.size) == Reverse(LittleEndian(value, t.size))
    ensures InRange(t, Swapped(t, value))
  {
    var bytes := LittleEndian(value, t.size);
    BigEndianBound(bytes);
    WrapSmall(t, FromBigEndian(bytes));
    ReverseTwice(bytes);
    ReversedValue(Reverse(bytes));
    BytesOfValue(Reverse(bytes));
  }

  /** Every value of the type survives two swaps, negative ids included. */
  lemma SwapSelfInverse(t: IntType, value: int)
    requires InRange(t, value)
    ensures Swapped(t, Swapped(t, value)) == value
  {
    SwapReversesBytes(t, value);
    ReversedValue(LittleEndian(value, t.size));
    ValueOfBytes(value, t.size);
    WrapSmall(t, FromLittleEndian(LittleEndian(value, t.size)));
  }

  /** A value of the type is determined by its bytes in network order. */
  lemma BigEndianRoundTrip(t: IntType, value: int)
    requires InRange(t, value)
    ensures Wrap(t, FromBigEndian(BigEndian(value, t.size))) == value
  {
    ReversedValue(LittleEndian(value, t.size));
    ValueOfBytes(value, t.size);
    WrapSmall(t, FromLittleEndian(LittleEndian(value, t.size)));
  }

  lemma BytesRoundTrip(t: IntType, bs: seq<Byte>)
    requires |bs| == t.size
    ensures BigEndian(Wrap(t, FromBigEndian(bs)), t.size) == bs
    ensures InRange(t, Wrap(t, FromBigEndian(bs)))
  {
    BigEndianBound(bs);
    WrapSmall(t, FromBigEndian(bs));
    ReverseTwice(bs);
    ReversedValue(Reverse(bs));
    BytesOfValue(Reverse(bs));
  }

  /** A 32-bit prefix loaded and swapped is the prefix read in network order. */
  lemma SwappedPrefix(bs: seq<Byte>)
    requires |bs| == 4
    ensures Swapped(UINT32, FromLittleEndian(bs)) == FromBigEndian(bs)
  {
    BytesOfValue(bs);
    BigEndianBound(bs);
    WrapSmall(UINT32, FromBigEndian(bs));
  }
}
