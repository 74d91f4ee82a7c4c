/** Bit strings, most significant bit first: bytes to bits and back, and fixed-width fields. */
module Bits {
  import opened Wire

  type Bit = b: int | 0 <= b < 2

  function ShiftRight(v: nat, n: nat): nat {
    if n == 0 then v else ShiftRight(v / 2, n - 1)
  }

  function BitOf(b: Byte, k: nat): Bit
    requires k < 8
  {
    ShiftRight(b, 7 - k) % 2
  }

  function BitsOf(data: seq<Byte>): (bits: seq<Bit>)
    ensures |bits| == 8 * |data|
  {
    seq(8 * |data|, i requires 0 <= i < 8 * |data| => BitOf(data[i / 8], i % 8))
  }

  function Value(bits: seq<Bit>): nat {
    if bits == [] then 0 else 2 * Value(bits[..|bits| - 1]) + bits[|bits| - 1]
  }

  // The u(w) field of section 7.2: v in w bits.
  function Fixed(v: nat, w: nat): (bits: seq<Bit>)
    ensures |bits| == w
  {
    if w == 0 then [] else Fixed(v / 2, w - 1) + [v % 2]
  }

  function Pack(bits: seq<Bit>): (data: seq<Byte>)
    requires |bits| % 8 == 0
    ensures |data| == |bits| / 8
  {
    if bits == [] then [] else
      ValueBound(bits[..8]);
      assert Pow2(8) == 256 by { assert Pow2(6) == 64; }
      [Value(bits[..8])] + Pack(bits[8..])
  }

  lemma {:induction false} ValueBound(bits: seq<Bit>)
    ensures Value(bits) < Pow2(|bits|)
  {
    if bits != [] {
      ValueBound(bits[..|bits| - 1]);
    }
  }

  lemma ValueStep(bits: seq<Bit>, first: nat, i: nat)
    requires first + i < |bits|
    ensures Value(bits[first..first + i + 1]) == 2 * Value(bits[first..first + i]) + bits[first + i]
  {
    assert bits[first..first + i + 1][..i] == bits[first..first + i];
  }

  lemma {:induction false} ValueOfFixed(v: nat, w: nat)
    requires v < Pow2(w)
    ensures Value(Fixed(v, w)) == v
  {
    if w != 0 {
      ValueOfFixed(v / 2, w - 1);
      assert Fixed(v, w)[..w - 1] == Fixed(v / 2, w - 1);
    }
  }

  lemma {:induction false} FixedOfValue(bits: seq<Bit>)
    ensures Fixed(Value(bits), |bits|) == bits
  {
    if bits != [] {
      FixedOfValue(bits[..|bits| - 1]);
      assert Value(bits) / 2 == Value(bits[..|bits| - 1]);
    }
  }

  lemma {:induction false} ShiftedValue(bits: seq<Bit>, n: nat)
    requires n <= |bits|
    ensures ShiftRight(Value(bits), n) == Value(bits[..|bits| - n])
    decreases n
  {
    if n == 0 {
      assert bits[..|bits|] == bits;
    } else {
      var shorter := bits[..|bits| - 1];
      ShiftedValue(shorter, n - 1);
      assert shorter[..|shorter| - (n - 1)] == bits[..|bits| - n];
    }
  }

  lemma PackedByte(bits: seq<Bit>, k: nat)
    requires |bits| == 8 && k < 8
    ensures Value(bits) < 256 && BitOf(Value(bits), k) == bits[k]
  {
    ValueBound(bits);
    assert Pow2(8) == 256 by { assert Pow2(6) == 64; }
    ShiftedValue(bits, 7 - k);
    assert bits[..k + 1][..k] == bits[..k];
  }

  lemma BitsOfAppend(a: seq<Byte>, b: seq<Byte>)
    ensures BitsOf(a + b) == BitsOf(a) + BitsOf(b)
  {
  }

  // Packing loses nothing: the reader's bits are the packed bits.
  lemma {:induction false} PackRoundTrip(bits: seq<Bit>)
    requires |bits| % 8 == 0
    ensures BitsOf(Pack(bits)) == bits
  {
    if bits != [] {
      PackRoundTrip(bits[8..]);
      var first := Pack(bits)[..1];
      assert Pack(bits) == first + Pack(bits[8..]);
      BitsOfAppend(first, Pack(bits[8..]));
      forall k: nat | k < 8
        ensures BitsOf(first)[k] == bits[k]
      {
        PackedByte(bits[..8], k);
      }
      assert BitsOf(first) == bits[..8];
      assert bits == bits[..8] + bits[8..];
    }
  }

  lemma BitsOfPrefix(a: seq<Byte>, b: seq<Byte>)
    requires a <= b
    ensures BitsOf(a) <= BitsOf(b)
  {
  }
}
