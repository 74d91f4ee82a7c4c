/**
 Which packed parameter sets the ID parsers read back. In-range PPS fields never trip the reader's
 emulation step; SPS fields trip it on exactly one header.
 */
module PackedIds {
  import opened Wire
  import opened Bits
  import opened Rbsp
  import opened H264Bits

  //
  // What 00 00 03 looks like among packed bits.
  //

  lemma {:induction false} ShiftOfZero(n: nat)
    ensures ShiftRight(0, n) == 0
  {
    if n > 0 {
      ShiftOfZero(n - 1);
    }
  }

  lemma ZeroByte(k: nat)
    requires k < 8
    ensures BitOf(0, k) == 0
  {
    ShiftOfZero(7 - k);
  }

  lemma ThreeByte(k: nat)
    requires k < 6
    ensures BitOf(3, k) == 0
  {
    ShiftOfZero(5 - k);
    assert ShiftRight(3, 7 - k) == ShiftRight(1, 6 - k) == ShiftRight(0, 5 - k);
  }

  lemma BitAt(bits: seq<Bit>, j: nat)
    requires |bits| % 8 == 0 && j < |bits|
    ensures bits[j] == BitOf(Pack(bits)[j / 8], j % 8)
  {
    PackRoundTrip(bits);
  }

  // 00 00 03 is a run of 22 zero bits, and two ones.
  lemma StuffedBits(bits: seq<Bit>, i: nat, j: nat)
    requires |bits| % 8 == 0 && OccursAt(Pack(bits), STUFFED, i)
    requires 8 * i <= j < 8 * i + 22
    ensures j < |bits| && bits[j] == 0
  {
    StuffedByte(Pack(bits), i, j / 8);
    BitAt(bits, j);
    BitInStuffed(Pack(bits)[j / 8], i, j);
  }

  lemma StuffedByte(data: seq<Byte>, i: nat, q: nat)
    requires OccursAt(data, STUFFED, i) && i <= q <= i + 2
    ensures q < |data| && data[q] == if q <= i + 1 then 0 else 3
  {
  }

  lemma BitInStuffed(b: Byte, i: nat, j: nat)
    requires 8 * i <= j < 8 * i + 22
    requires j / 8 <= i + 1 ==> b == 0
    requires j / 8 == i + 2 ==> b == 3
    ensures BitOf(b, j % 8) == 0
  {
    if j < 8 * i + 16 {
      ZeroByte(j % 8);
    } else {
      ThreeByte(j % 8);
    }
  }

  lemma StuffedField(bits: seq<Bit>, k: nat, i: nat)
    requires |bits| % 8 == 0 && k <= |Pack(bits)| && OccursAt(Pack(bits)[..k], STUFFED, i)
    ensures OccursAt(Pack(bits), STUFFED, i) && i + 3 <= k
  {
  }

  lemma SmallLog(n: nat, z: nat)
    requires n + 1 < Pow2(z + 1)
    ensures Log2(n + 1) <= z
  {
    Log2Bounds(n + 1);
    if Log2(n + 1) > z {
      Pow2Monotone(z + 1, Log2(n + 1));
    }
  }

  lemma SpsIdLog(id: nat)
    requires id <= 31
    ensures Log2(id + 1) <= 5
  {
    assert Pow2(6) == 64;
    SmallLog(id, 5);
  }

  lemma PpsIdLog(id: nat)
    requires id <= 255
    ensures Log2(id + 1) <= 8
  {
    assert Pow2(9) == 512 by { assert Pow2(6) == 64; }
    SmallLog(id, 8);
  }

  lemma OneInCode(n: nat)
    ensures UeCode(n)[Log2(n + 1)] == 1
  {
  }

  //
  // PPS.
  //

  lemma OnesInPps(id: nat, spsId: nat)
    ensures var z := Log2(id + 1);
            var one := 2 * z + 1 + Log2(spsId + 1);
            one < |PpsFields(id, spsId)| && PpsFields(id, spsId)[z] == 1 && PpsFields(id, spsId)[one] == 1
  {
  }

  lemma PpsIsUnstuffed(id: nat, spsId: nat, tail: seq<Bit>)
    requires id <= 255 && spsId <= 31 && |PpsFields(id, spsId) + tail| % 8 == 0
    ensures FieldsUnstuffed(PpsFields(id, spsId), tail)
  {
    var fields := PpsFields(id, spsId);
    var bits := fields + tail;
    var z := Log2(id + 1);
    var one := 2 * z + 1 + Log2(spsId + 1);
    PpsIdLog(id);
    SpsIdLog(spsId);
    OnesInPps(id, spsId);
    var held := Pack(bits)[..(|fields| + 7) / 8];
    forall i: nat
      ensures !OccursAt(held, STUFFED, i)
    {
      if OccursAt(held, STUFFED, i) {
        StuffedField(bits, (|fields| + 7) / 8, i);
        StuffedBits(bits, i, if i == 0 then z else one);
      }
    }
  }

  /** Every PPS packed with IDs in range parses to them, whatever follows its two IDs. */
  lemma PpsIdsReadBack(header: Byte, id: nat, spsId: nat, tail: seq<Bit>)
    requires id <= 255 && spsId <= 31 && |PpsFields(id, spsId) + tail| % 8 == 0
    ensures PpsIdsOf(NalOf(header, PpsFields(id, spsId), tail)) == Some((id, spsId))
  {
    PpsIsUnstuffed(id, spsId, tail);
    PackedPpsIds(header, id, spsId, tail);
  }

  //
  // SPS.
  //

  lemma PackByte(v: Byte, rest: seq<Bit>)
    requires |rest| % 8 == 0
    ensures Pack(Fixed(v, 8) + rest) == [v] + Pack(rest)
  {
    assert Pow2(8) == 256 by { assert Pow2(6) == 64; }
    ValueOfFixed(v, 8);
    assert (Fixed(v, 8) + rest)[..8] == Fixed(v, 8) && (Fixed(v, 8) + rest)[8..] == rest;
  }

  lemma SpsFieldsAre(profile: Byte, flags: Byte, level: Byte, id: nat, tail: seq<Bit>)
    ensures SpsFields(profile, flags, level, id) + tail
            == Fixed(profile, 8) + (Fixed(flags, 8) + (Fixed(level, 8) + (UeCode(id) + tail)))
  {
  }

  lemma PackSps(profile: Byte, flags: Byte, level: Byte, id: nat, tail: seq<Bit>)
    requires |SpsFields(profile, flags, level, id) + tail| % 8 == 0
    ensures |UeCode(id) + tail| % 8 == 0
    ensures Pack(SpsFields(profile, flags, level, id) + tail) == [profile, flags, level] + Pack(UeCode(id) + tail)
  {
    SpsFieldsAre(profile, flags, level, id, tail);
    PackThree(profile, flags, level, UeCode(id) + tail);
  }

  lemma PackThree(a: Byte, b: Byte, c: Byte, rest: seq<Bit>)
    requires |Fixed(a, 8) + (Fixed(b, 8) + (Fixed(c, 8) + rest))| % 8 == 0
    ensures |rest| % 8 == 0
    ensures Pack(Fixed(a, 8) + (Fixed(b, 8) + (Fixed(c, 8) + rest))) == [a, b, c] + Pack(rest)
  {
    PackByte(c, rest);
    PackByte(b, Fixed(c, 8) + rest);
    PackByte(a, Fixed(b, 8) + (Fixed(c, 8) + rest));
  }

  // The one header the reader stumbles over: profile 0, no constraint flags, level 3.
  predicate IsStuffedHeader(profile: Byte, flags: Byte, level: Byte) {
    profile == 0 && flags == 0 && level == 3
  }

  lemma SpsIsUnstuffed(profile: Byte, flags: Byte, level: Byte, id: nat, tail: seq<Bit>)
    requires id <= 31 && !IsStuffedHeader(profile, flags, level)
    requires |SpsFields(profile, flags, level, id) + tail| % 8 == 0
    ensures FieldsUnstuffed(SpsFields(profile, flags, level, id), tail)
  {
    var fields := SpsFields(profile, flags, level, id);
    var bits := fields + tail;
    var z := Log2(id + 1);
    SpsIdLog(id);
    OneInCode(id);
    PackSps(profile, flags, level, id, tail);
    assert bits[24 + z] == UeCode(id)[z] == 1;
    var data := Pack(bits);
    var held := data[..(|fields| + 7) / 8];
    forall i: nat
      ensures !OccursAt(held, STUFFED, i)
    {
      if OccursAt(held, STUFFED, i) {
        StuffedField(bits, (|fields| + 7) / 8, i);
        if i == 0 {
          StuffedHeader(data, profile, flags, level);
        } else {
          StuffedBits(bits, i, 24 + z);
        }
      }
    }
  }

  lemma StuffedHeader(data: seq<Byte>, profile: Byte, flags: Byte, level: Byte)
    requires OccursAt(data, STUFFED, 0) && [profile, flags, level] <= data
    ensures IsStuffedHeader(profile, flags, level)
  {
    assert data[..3] == [profile, flags, level];
    assert data[0..3] == data[..3];
  }

  // The shortest tail that fills the last byte.
  function Padding(id: nat): seq<Bit> {
    ZeroBits(PaddingBits(|UeCode(id)|))
  }

  function PaddingBits(n: nat): (pad: nat)
    ensures pad <= 7 && (n + pad) % 8 == 0
  {
    (8 - n % 8) % 8
  }

  // The reader drops at least the stuffed byte.
  lemma ReaderDropsThree(rest: seq<Byte>)
    ensures |Stripped(Escape(STUFFED + rest))| <= 2 + |rest|
  {
    var payload := STUFFED + rest;
    StandardRoundTrip(payload);
    ReaderIsStandardThenStrip(Escape(payload));
    StripAppend([], STUFFED, rest);
    StripThree([]);
    assert [] + [0] + [0] == [0, 0 as Byte];
    StripShortens([0, 0], rest);
  }

  lemma PaddingFills(id: nat)
    ensures |UeCode(id) + Padding(id)| % 8 == 0 && |UeCode(id) + Padding(id)| <= |UeCode(id)| + 7
    ensures |SpsFields(0, 0, 3, id) + Padding(id)| % 8 == 0
  {
  }

  lemma StuffedHeaderBits(header: Byte, id: nat)
    ensures |SpsFields(0, 0, 3, id) + Padding(id)| % 8 == 0
    ensures |NalBits(NalOf(header, SpsFields(0, 0, 3, id), Padding(id)))| < SPS_HEADER_BITS + |UeCode(id)|
  {
    PaddingFills(id);
    PackSps(0, 0, 3, id, Padding(id));
    var rest := Pack(UeCode(id) + Padding(id));
    var nalu := NalOf(header, SpsFields(0, 0, 3, id), Padding(id));
    assert nalu[1..] == Escape(STUFFED + rest);
    ReaderDropsThree(rest);
    assert 8 * |rest| == |UeCode(id) + Padding(id)|;
    assert |NalBits(nalu)| == 8 * |Stripped(nalu[1..])| <= 8 * (2 + |rest|);
  }

  lemma NoRoomForId(nalu: seq<Byte>, id: nat)
    requires nalu != [] && |NalBits(nalu)| < SPS_HEADER_BITS + |UeCode(id)|
    ensures SpsIdOf(nalu) != Some(id)
  {
    var bits := NalBits(nalu);
    if SpsIdOf(nalu) == Some(id) {
      UeReadsOnlyCodes(bits, SPS_HEADER_BITS);
    }
  }

  lemma StuffedHeaderLosesId(header: Byte, id: nat)
    ensures |SpsFields(0, 0, 3, id) + Padding(id)| % 8 == 0
    ensures SpsIdOf(NalOf(header, SpsFields(0, 0, 3, id), Padding(id))) != Some(id)
  {
    StuffedHeaderBits(header, id);
    NoRoomForId(NalOf(header, SpsFields(0, 0, 3, id), Padding(id)), id);
  }

  lemma SpsIdReadsBack(header: Byte, profile: Byte, flags: Byte, level: Byte, id: nat, tail: seq<Bit>)
    requires id <= 31 && !IsStuffedHeader(profile, flags, level)
    requires |SpsFields(profile, flags, level, id) + tail| % 8 == 0
    ensures SpsIdOf(NalOf(header, SpsFields(profile, flags, level, id), tail)) == Some(id)
  {
    SpsIsUnstuffed(profile, flags, level, id, tail);
    PackedSpsId(header, profile, flags, level, id, tail);
  }

  /** An SPS packed with an ID in range parses to it, whatever follows, exactly unless its header is 00 00 03. */
  lemma SpsIdReadsBackExactly(header: Byte, profile: Byte, flags: Byte, level: Byte, id: nat)
    requires id <= 31
    ensures !IsStuffedHeader(profile, flags, level) <==>
            forall tail: seq<Bit> | |SpsFields(profile, flags, level, id) + tail| % 8 == 0 ::
              SpsIdOf(NalOf(header, SpsFields(profile, flags, level, id), tail)) == Some(id)
  {
    var fields := SpsFields(profile, flags, level, id);
    if IsStuffedHeader(profile, flags, level) {
      StuffedHeaderLosesId(header, id);
    } else {
      forall tail: seq<Bit> | |fields + tail| % 8 == 0
        ensures SpsIdOf(NalOf(header, fields, tail)) == Some(id)
      {
        SpsIdReadsBack(header, profile, flags, level, id, tail);
      }
    }
  }

  //
  // Slice headers.
  //

  // The largest level has 139264 macroblocks in a frame.
  const FIRST_MB_BITS: nat := 18

  lemma SliceTypeLog(sliceType: nat)
    requires sliceType <= 9
    ensures Log2(sliceType + 1) <= 3
  {
    assert Pow2(4) == 16;
    SmallLog(sliceType, 3);
  }

  lemma OnesInSlice(firstMb: nat, sliceType: nat, ppsId: nat)
    ensures var fields := SliceFields(firstMb, sliceType, ppsId);
            var z := Log2(firstMb + 1);
            var one := 2 * z + 1 + Log2(sliceType + 1);
            var last := one + Log2(sliceType + 1) + 1 + Log2(ppsId + 1);
            && last + Log2(ppsId + 1) + 1 == |fields|
            && fields[z] == 1 && fields[one] == 1 && fields[last] == 1
  {
    OneInCode(firstMb);
    OneInCode(sliceType);
    OneInCode(ppsId);
  }

  // The ones of the three codewords lie too close together to leave room for 22 zeros.
  lemma SliceIsUnstuffed(firstMb: nat, sliceType: nat, ppsId: nat, tail: seq<Bit>)
    requires Log2(firstMb + 1) <= 17 && Log2(sliceType + 1) <= 3 && Log2(ppsId + 1) <= 8
    requires |SliceFields(firstMb, sliceType, ppsId) + tail| % 8 == 0
    ensures FieldsUnstuffed(SliceFields(firstMb, sliceType, ppsId), tail)
  {
    var fields := SliceFields(firstMb, sliceType, ppsId);
    var bits := fields + tail;
    var z := Log2(firstMb + 1);
    var one := 2 * z + 1 + Log2(sliceType + 1);
    var last := one + Log2(sliceType + 1) + 1 + Log2(ppsId + 1);
    OnesInSlice(firstMb, sliceType, ppsId);
    assert bits[z] == 1 && bits[one] == 1 && bits[last] == 1;
    OnesLeaveNoRoom(bits, |fields|, z, one, last);
  }

  lemma OnesLeaveNoRoom(bits: seq<Bit>, n: nat, z: nat, one: nat, last: nat)
    requires |bits| % 8 == 0 && z < one < last < n <= |bits|
    requires bits[z] == 1 && bits[one] == 1 && bits[last] == 1
    requires z < 22 && one < z + 22 && last < one + 22 && n <= last + 10
    ensures !Contains(Pack(bits)[..(n + 7) / 8], STUFFED)
  {
    var held := Pack(bits)[..(n + 7) / 8];
    forall i: nat
      ensures !OccursAt(held, STUFFED, i)
    {
      if OccursAt(held, STUFFED, i) {
        StuffedField(bits, (n + 7) / 8, i);
        StuffedBits(bits, i, if 8 * i <= z then z else if 8 * i <= one then one else last);
      }
    }
  }

  // Every slice header of a conforming stream (slice types of table 7-6 of H.264) parses to its PPS ID,
  // whatever follows it.
  lemma SlicePpsIdReadsBack(header: Byte, firstMb: nat, sliceType: nat, ppsId: nat, tail: seq<Bit>)
    requires firstMb + 1 < Pow2(FIRST_MB_BITS) && sliceType <= 9 && ppsId <= 255
    requires |SliceFields(firstMb, sliceType, ppsId) + tail| % 8 == 0
    ensures SlicePpsIdOf(NalOf(header, SliceFields(firstMb, sliceType, ppsId), tail)) == Some(ppsId)
  {
    SmallLog(firstMb, FIRST_MB_BITS - 1);
    SliceTypeLog(sliceType);
    PpsIdLog(ppsId);
    SliceIsUnstuffed(firstMb, sliceType, ppsId, tail);
    assert Pow2(FIRST_MB_BITS) <= MAX_UE by { Pow2Monotone(FIRST_MB_BITS, 31); Pow2At31(); }
    PackedSlicePpsId(header, firstMb, sliceType, ppsId, tail);
  }

  lemma Pow2At31()
    ensures Pow2(31) == 0x8000_0000
  {
    Pow2At32();
  }

  //
  // A slice header on which the parser goes wrong: its first macroblock is out of range.
  //

  const FAR_MB: nat := 0x5F_FFFF

  lemma {:induction false} OneAndZeros(n: nat)
    ensures Value([1] + ZeroBits(n)) == Pow2(n)
  {
    var bits: seq<Bit> := [1] + ZeroBits(n);
    if n == 0 {
      assert bits[..0] == [];
    } else {
      OneAndZeros(n - 1);
      assert bits[..|bits| - 1] == [1] + ZeroBits(n - 1);
    }
  }

  lemma FarPowers()
    ensures Pow2(21) == 0x20_0000 && Pow2(22) == 0x40_0000
  {
    assert Pow2(8) == 0x100 by { assert Pow2(4) == 16; assert Pow2(6) == 64; }
    assert Pow2(16) == 0x1_0000 by { assert Pow2(10) == 0x400; assert Pow2(12) == 0x1000; assert Pow2(14) == 0x4000; }
    assert Pow2(18) == 0x4_0000;
    assert Pow2(20) == 0x10_0000;
  }

  lemma FarFields()
    ensures SliceFields(FAR_MB, 0, 0) == ZeroBits(22) + [1] + ([1] + ZeroBits(21)) + [1] + [1]
  {
    FarPowers();
    OneAndZeros(21);
    CodeOfSuffix(FAR_MB, [1] + ZeroBits(21));
    assert UeCode(0) == [1];
  }

  lemma FarBytes()
    ensures |SliceFields(FAR_MB, 0, 0) + [1]| % 8 == 0
    ensures Pack(SliceFields(FAR_MB, 0, 0) + [1]) == STUFFED + [0, 0, 7]
  {
    var none: seq<Bit> := [];
    FarFields();
    FarByteFields(none);
    PackThree(0, 0, 7, none);
    PackThree(0, 0, 3, Fixed(0, 8) + (Fixed(0, 8) + (Fixed(7, 8) + none)));
  }

  lemma FarByteFields(none: seq<Bit>)
    requires none == []
    ensures ZeroBits(22) + [1] + ([1] + ZeroBits(21)) + [1] + [1] + [1]
            == Fixed(0, 8) + (Fixed(0, 8) + (Fixed(3, 8) + (Fixed(0, 8) + (Fixed(0, 8) + (Fixed(7, 8) + none)))))
  {
    SmallFixed();
  }

  lemma SmallFixed()
    ensures Fixed(0, 8) == [0, 0, 0, 0, 0, 0, 0, 0]
    ensures Fixed(3, 8) == [0, 0, 0, 0, 0, 0, 1, 1]
    ensures Fixed(7, 8) == [0, 0, 0, 0, 0, 1, 1, 1]
  {
    assert Fixed(0, 4) == [0, 0, 0, 0];
    assert Fixed(0, 6) == [0, 0, 0, 0, 0, 0];
    assert Fixed(0, 5) == [0, 0, 0, 0, 0];
    assert Fixed(1, 6) == Fixed(0, 5) + [1];
    assert Fixed(3, 7) == Fixed(1, 6) + [1];
  }

  // Its slice refers to PPS 0, and the parser finds no ID at all.
  lemma FarSliceLosesId(header: Byte)
    ensures |SliceFields(FAR_MB, 0, 0) + [1]| % 8 == 0
    ensures SlicePpsIdOf(NalOf(header, SliceFields(FAR_MB, 0, 0), [1])) == None
  {
    FarBytes();
    var nalu := NalOf(header, SliceFields(FAR_MB, 0, 0), [1]);
    assert nalu[1..] == Escape(STUFFED + [0, 0, 7]);
    FarIsStripped();
    FarBits(NalBits(nalu));
  }

  lemma FarIsStripped()
    ensures Stripped(Escape(STUFFED + [0, 0, 7])) == [0, 0, 0, 0, 7]
  {
    var rest: seq<Byte> := [0, 0, 7];
    StandardRoundTrip(STUFFED + rest);
    ReaderIsStandardThenStrip(Escape(STUFFED + rest));
    StripAppend([], STUFFED, rest);
    StripThree([]);
    assert [] + [0] + [0] == [0, 0 as Byte];
    assert rest[1..] == [0, 7] && rest[1..][1..] == [7];
    assert StripOnto([0, 0, 0, 0], [7]) == StripOnto([0, 0, 0, 0, 7], []);
  }

  lemma FarBits(bits: seq<Bit>)
    requires bits == BitsOf([0, 0, 0, 0, 7])
    ensures !ReadUe(bits, 0).ok
  {
    forall j: nat | j < 32
      ensures bits[j] == 0
    {
      ZeroByte(j % 8);
    }
    LeadingZerosMeaning(bits, 0);
  }
}
