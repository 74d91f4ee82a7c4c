/**
 The bit reader of cmd/go-ring/h264_bits.go: the RBSP loop, unsigned Exp-Golomb values (section 9.1
 of ITU-T H.264) and the IDs inside SPS, PPS and slice headers.
 */
module H264Bits {
  import opened Wire
  import opened Bits
  import opened Rbsp

  const MAX_EXP_GOLOMB_ZEROS: nat := 31
  const MIN_SPS_BYTES: nat := 4
  const SPS_HEADER_BITS: nat := 24
  const MAX_SPS_ID: nat := 31
  const MAX_PPS_ID: nat := 255
  const MAX_UE: nat := 0xFFFF_FFFE

  //
  // Exp-Golomb codes.
  //

  function Log2(m: nat): nat
    requires m >= 1
  {
    if m == 1 then 0 else 1 + Log2(m / 2)
  }

  function ZeroBits(n: nat): (bits: seq<Bit>)
    ensures |bits| == n
  {
    seq(n, _ => 0)
  }

  // The codeword of codeNum n in section 9.1: z zeros, a one, and n + 1 - 2^z in z bits.
  function UeCode(n: nat): (bits: seq<Bit>)
    ensures |bits| == 2 * Log2(n + 1) + 1
  {
    Log2Bounds(n + 1);
    var z := Log2(n + 1);
    ZeroBits(z) + [1] + Fixed(n + 1 - Pow2(z), z)
  }

  function LeadingZeros(bits: seq<Bit>, pos: nat): (z: nat)
    ensures pos <= |bits| ==> pos + z <= |bits|
    decreases |bits| - pos
  {
    if pos < |bits| && bits[pos] == 0 then 1 + LeadingZeros(bits, pos + 1) else 0
  }

  lemma {:induction false} LeadingZerosMeaning(bits: seq<Bit>, pos: nat)
    requires pos <= |bits|
    ensures var z := LeadingZeros(bits, pos);
            && (forall i :: pos <= i < pos + z ==> bits[i] == 0)
            && (pos + z < |bits| ==> bits[pos + z] == 1)
    decreases |bits| - pos
  {
    if pos < |bits| && bits[pos] == 0 {
      LeadingZerosMeaning(bits, pos + 1);
    }
  }

  datatype UeRead = UeRead(ok: bool, value: nat, next: nat)

  // What reading one value at `pos` gives, and where the cursor stops, failures included.
  function ReadUe(bits: seq<Bit>, pos: nat): UeRead
    requires pos <= |bits|
  {
    var z := LeadingZeros(bits, pos);
    if z > MAX_EXP_GOLOMB_ZEROS then UeRead(false, 0, pos + MAX_EXP_GOLOMB_ZEROS + 1)
    else if pos + 2 * z + 1 > |bits| then UeRead(false, 0, |bits|)
    else UeRead(true, Pow2(z) - 1 + Value(bits[pos + z + 1..pos + 2 * z + 1]), pos + 2 * z + 1)
  }

  // The number whose binary form is a one and the next i bits.
  ghost function CodeValue(bits: seq<Bit>, first: nat, i: nat): (v: nat)
    requires first + i <= |bits|
    ensures v >= 1
  {
    if i == 0 then 1 else 2 * CodeValue(bits, first, i - 1) + bits[first + i - 1]
  }

  lemma {:induction false} CodeValueIs(bits: seq<Bit>, first: nat, i: nat)
    requires first + i <= |bits|
    ensures CodeValue(bits, first, i) == Pow2(i) + Value(bits[first..first + i])
  {
    if i > 0 {
      CodeValueIs(bits, first, i - 1);
      ValueStep(bits, first, i - 1);
    }
  }

  // The accumulated value is the one section 9.1 defines.
  lemma AccumulatedValue(bits: seq<Bit>, pos: nat, z: nat)
    requires pos <= |bits| && z == LeadingZeros(bits, pos)
    requires z <= MAX_EXP_GOLOMB_ZEROS && pos + 2 * z + 1 <= |bits|
    ensures ReadUe(bits, pos) == UeRead(true, CodeValue(bits, pos + z + 1, z) - 1, pos + 2 * z + 1)
  {
    CodeValueIs(bits, pos + z + 1, z);
  }

  //
  // The reader.
  //

  class H264Bits {
    const data: seq<Byte>
    ghost const bits: seq<Bit>
    var bit: nat

    ghost predicate Valid()
      reads this
    {
      bits == BitsOf(data) && bit <= |bits|
    }

    // The caller has checked that the NAL unit is not empty.
    constructor (nalu: seq<Byte>)
      requires nalu != []
      ensures Valid() && data == Stripped(nalu[1..]) && bit == 0
    {
      var kept: seq<Byte> := [];
      for i := 1 to |nalu|
        invariant StripOnto(kept, nalu[i..]) == Stripped(nalu[1..])
      {
        assert nalu[i..][1..] == nalu[i + 1..];
        if |kept| >= 2 && kept[|kept| - 2] == 0 && kept[|kept| - 1] == 0 && nalu[i] == 3 {
          continue;
        }
        kept := kept + [nalu[i]];
      }
      data, bits := kept, BitsOf(kept);
      bit := 0;
    }

    method BitValue() returns (value: Bit, ok: bool)
      requires Valid()
      modifies `bit
      ensures Valid()
      ensures ok == (old(bit) < |bits|)
      ensures ok ==> value == bits[old(bit)] && bit == old(bit) + 1
      ensures !ok ==> value == 0 && bit == old(bit)
    {
      if bit >= |data| * 8 {
        return 0, false;
      }
      value := ShiftRight(data[bit / 8], 7 - bit % 8) % 2;
      bit := bit + 1;
      return value, true;
    }

    method Skip(count: nat) returns (ok: bool)
      requires Valid()
      modifies `bit
      ensures Valid()
      ensures ok == (old(bit) + count <= |bits|)
      ensures bit == if ok then old(bit) + count else old(bit)
    {
      if bit + count > |data| * 8 {
        return false;
      }
      bit := bit + count;
      return true;
    }

    // The first loop of ue: leading zeros and the one behind them.
    method LeadingZeroBits() returns (zeros: nat, ok: bool)
      requires Valid()
      modifies `bit
      ensures Valid()
      ensures ok ==> zeros == LeadingZeros(bits, old(bit)) <= MAX_EXP_GOLOMB_ZEROS && bit == old(bit) + zeros + 1
      ensures !ok ==> ReadUe(bits, old(bit)) == UeRead(false, 0, bit)
    {
      ghost var start := bit;
      zeros := 0;
      while true
        invariant bit == start + zeros <= |bits|
        invariant zeros <= MAX_EXP_GOLOMB_ZEROS
        invariant LeadingZeros(bits, start) == zeros + LeadingZeros(bits, bit)
        decreases MAX_EXP_GOLOMB_ZEROS - zeros
      {
        var b, got := BitValue();
        if !got {
          return 0, false;
        }
        if b != 0 {
          return zeros, true;
        }
        zeros := zeros + 1;
        if zeros > MAX_EXP_GOLOMB_ZEROS {
          return 0, false;
        }
      }
    }

    method Ue() returns (value: nat, ok: bool)
      requires Valid()
      modifies `bit
      ensures Valid()
      ensures UeRead(ok, value, bit) == ReadUe(bits, old(bit))
    {
      ghost var start := bit;
      var zeros, found := LeadingZeroBits();
      if !found {
        return 0, false;
      }
      value := 1;
      ghost var first := bit;
      for i := 0 to zeros
        invariant bit == first + i <= |bits|
        invariant value == CodeValue(bits, first, i)
      {
        var b, got := BitValue();
        if !got {
          return 0, false;
        }
        value := 2 * value + b;
      }
      AccumulatedValue(bits, start, zeros);
      return value - 1, true;
    }
  }

  //
  // The IDs.
  //

  function InRange(r: UeRead, limit: nat): Option<nat> {
    if r.ok && r.value <= limit then Some(r.value) else None
  }

  // The bits the parsers see.
  function NalBits(nalu: seq<Byte>): seq<Bit>
    requires nalu != []
  {
    BitsOf(Stripped(nalu[1..]))
  }

  function SpsIdOf(nalu: seq<Byte>): Option<nat> {
    if |nalu| < MIN_SPS_BYTES || |NalBits(nalu)| < SPS_HEADER_BITS then None
    else InRange(ReadUe(NalBits(nalu), SPS_HEADER_BITS), MAX_SPS_ID)
  }

  // PPS ID, then the ID of the SPS it refers to.
  function PpsIdsOf(nalu: seq<Byte>): Option<(nat, nat)> {
    if |nalu| < 2 then None else
    var pps := ReadUe(NalBits(nalu), 0);
    ReadUeBounds(NalBits(nalu), 0);
    if !pps.ok then None else
    var sps := ReadUe(NalBits(nalu), pps.next);
    if sps.ok && pps.value <= MAX_PPS_ID && sps.value <= MAX_SPS_ID then Some((pps.value, sps.value)) else None
  }

  function SlicePpsIdOf(nalu: seq<Byte>): Option<nat> {
    if |nalu| < 2 then None else
    var bits := NalBits(nalu);
    var first := ReadUe(bits, 0);
    ReadUeBounds(bits, 0);
    if !first.ok then None else
    var kind := ReadUe(bits, first.next);
    ReadUeBounds(bits, first.next);
    if !kind.ok then None else InRange(ReadUe(bits, kind.next), MAX_PPS_ID)
  }

  method H264SpsId(nalu: seq<Byte>) returns (id: Option<nat>)
    ensures id == SpsIdOf(nalu)
  {
    if |nalu| < MIN_SPS_BYTES {
      return None;
    }
    var bits := new H264Bits(nalu);
    var skipped := bits.Skip(SPS_HEADER_BITS);
    if !skipped {
      return None;
    }
    var value, ok := bits.Ue();
    return if ok && value <= MAX_SPS_ID then Some(value) else None;
  }

  method H264PpsIds(nalu: seq<Byte>) returns (ids: Option<(nat, nat)>)
    ensures ids == PpsIdsOf(nalu)
  {
    if |nalu| < 2 {
      return None;
    }
    var bits := new H264Bits(nalu);
    var pps, ok := bits.Ue();
    if !ok {
      return None;
    }
    var sps;
    sps, ok := bits.Ue();
    return if ok && pps <= MAX_PPS_ID && sps <= MAX_SPS_ID then Some((pps, sps)) else None;
  }

  method H264SlicePpsId(nalu: seq<Byte>) returns (id: Option<nat>)
    ensures id == SlicePpsIdOf(nalu)
  {
    if |nalu| < 2 {
      return None;
    }
    var bits := new H264Bits(nalu);
    var _, ok := bits.Ue();
    if !ok {
      return None;
    }
    var _, ok2 := bits.Ue();
    if !ok2 {
      return None;
    }
    var value;
    value, ok := bits.Ue();
    return if ok && value <= MAX_PPS_ID then Some(value) else None;
  }

  //
  // Properties of the Exp-Golomb reader.
  //

  lemma {:induction false} Log2Bounds(m: nat)
    requires m >= 1
    ensures Pow2(Log2(m)) <= m < Pow2(Log2(m) + 1)
  {
    if m > 1 {
      Log2Bounds(m / 2);
    }
  }

  lemma {:induction false} Log2Unique(m: nat, z: nat)
    requires Pow2(z) <= m < Pow2(z + 1)
    ensures m >= 1 && Log2(m) == z
    decreases z
  {
    if z > 0 {
      Log2Unique(m / 2, z - 1);
    }
  }

  lemma {:induction false} Pow2Monotone(a: nat, b: nat)
    requires a <= b
    ensures Pow2(a) <= Pow2(b)
    decreases b
  {
    if a < b {
      Pow2Monotone(a, b - 1);
    }
  }

  lemma Pow2At32()
    ensures Pow2(32) == 0x1_0000_0000
  {
    assert Pow2(8) == 0x100 by { assert Pow2(4) == 16; assert Pow2(6) == 64; }
    assert Pow2(16) == 0x1_0000 by { assert Pow2(10) == 0x400; assert Pow2(12) == 0x1000; assert Pow2(14) == 0x4000; }
    assert Pow2(24) == 0x100_0000 by {
      assert Pow2(18) == 0x4_0000;
      assert Pow2(20) == 0x10_0000;
      assert Pow2(22) == 0x40_0000;
    }
    assert Pow2(26) == 0x400_0000;
    assert Pow2(28) == 0x1000_0000;
    assert Pow2(30) == 0x4000_0000;
  }

  // A value has at most 31 leading zeros exactly when it is at most 2^32 - 2.
  lemma UeRange(n: nat)
    ensures n <= MAX_UE <==> Log2(n + 1) <= MAX_EXP_GOLOMB_ZEROS
  {
    Pow2At32();
    Log2Bounds(n + 1);
    var z := Log2(n + 1);
    if z <= 31 {
      Pow2Monotone(z + 1, 32);
    } else {
      Pow2Monotone(32, z);
    }
  }

  lemma ReadUeBounds(bits: seq<Bit>, pos: nat)
    requires pos <= |bits|
    ensures pos <= ReadUe(bits, pos).next <= |bits|
  {
  }

  lemma {:induction false} LeadingZerosAre(bits: seq<Bit>, pos: nat, z: nat)
    requires pos + z <= |bits|
    requires forall i :: pos <= i < pos + z ==> bits[i] == 0
    requires pos + z < |bits| ==> bits[pos + z] == 1
    ensures LeadingZeros(bits, pos) == z
    decreases z
  {
    if z > 0 {
      LeadingZerosAre(bits, pos + 1, z - 1);
    }
  }

  lemma CodeStart(bits: seq<Bit>, pos: nat, z: nat, suffix: seq<Bit>)
    requires pos + 2 * z + 1 <= |bits| && |suffix| == z
    requires bits[pos..pos + 2 * z + 1] == ZeroBits(z) + [1] + suffix
    ensures LeadingZeros(bits, pos) == z
  {
    var code := bits[pos..pos + 2 * z + 1];
    forall i | pos <= i < pos + z
      ensures bits[i] == 0
    {
      assert bits[i] == code[i - pos];
    }
    assert bits[pos + z] == code[z];
    LeadingZerosAre(bits, pos, z);
  }

  lemma CodeEnd(bits: seq<Bit>, pos: nat, z: nat, suffix: seq<Bit>)
    requires pos + 2 * z + 1 <= |bits| && |suffix| == z
    requires bits[pos..pos + 2 * z + 1] == ZeroBits(z) + [1] + suffix
    ensures bits[pos + z + 1..pos + 2 * z + 1] == suffix
  {
  }

  lemma ReadUeIs(bits: seq<Bit>, pos: nat, z: nat, suffix: seq<Bit>)
    requires z <= MAX_EXP_GOLOMB_ZEROS && pos + 2 * z + 1 <= |bits|
    requires LeadingZeros(bits, pos) == z && bits[pos + z + 1..pos + 2 * z + 1] == suffix
    ensures ReadUe(bits, pos) == UeRead(true, Pow2(z) - 1 + Value(suffix), pos + 2 * z + 1)
  {
  }

  lemma CodeIsRead(bits: seq<Bit>, pos: nat, z: nat, suffix: seq<Bit>)
    requires z <= MAX_EXP_GOLOMB_ZEROS && pos + 2 * z + 1 <= |bits| && |suffix| == z
    requires bits[pos..pos + 2 * z + 1] == ZeroBits(z) + [1] + suffix
    ensures ReadUe(bits, pos) == UeRead(true, Pow2(z) - 1 + Value(suffix), pos + 2 * z + 1)
  {
    CodeStart(bits, pos, z, suffix);
    CodeEnd(bits, pos, z, suffix);
    ReadUeIs(bits, pos, z, suffix);
  }

  lemma PartOf(before: seq<Bit>, code: seq<Bit>, after: seq<Bit>)
    ensures (before + code + after)[|before|..|before| + |code|] == code
  {
  }

  // Reading a codeword, at any offset and with anything after it, gives its number back.
  lemma UeInvertsCode(before: seq<Bit>, n: nat, after: seq<Bit>)
    requires n <= MAX_UE
    ensures ReadUe(before + UeCode(n) + after, |before|) == UeRead(true, n, |before| + 2 * Log2(n + 1) + 1)
  {
    UeRange(n);
    Log2Bounds(n + 1);
    var z := Log2(n + 1);
    PartOf(before, UeCode(n), after);
    CodeIsRead(before + UeCode(n) + after, |before|, z, Fixed(n + 1 - Pow2(z), z));
    ValueOfFixed(n + 1 - Pow2(z), z);
  }

  // Every success read exactly the codeword of its result.
  lemma UeReadsOnlyCodes(bits: seq<Bit>, pos: nat)
    requires pos <= |bits| && ReadUe(bits, pos).ok
    ensures var r := ReadUe(bits, pos);
            r.value <= MAX_UE && r.next <= |bits| && bits[pos..r.next] == UeCode(r.value)
  {
    LeadingZerosMeaning(bits, pos);
    var z := LeadingZeros(bits, pos);
    var suffix := bits[pos + z + 1..pos + 2 * z + 1];
    CodeOfSuffix(ReadUe(bits, pos).value, suffix);
    assert bits[pos..pos + 2 * z + 1] == ZeroBits(z) + [1] + suffix;
  }

  lemma UeCodeIs(n: nat, z: nat, v: nat, suffix: seq<Bit>)
    requires n + 1 == Pow2(z) + v && v < Pow2(z) && Fixed(v, z) == suffix
    ensures UeCode(n) == ZeroBits(z) + [1] + suffix && Log2(n + 1) == z
  {
    Log2Unique(n + 1, z);
  }

  // The codeword with this suffix.
  lemma CodeOfSuffix(n: nat, suffix: seq<Bit>)
    requires |suffix| <= MAX_EXP_GOLOMB_ZEROS && n == Pow2(|suffix|) - 1 + Value(suffix)
    ensures n <= MAX_UE && UeCode(n) == ZeroBits(|suffix|) + [1] + suffix
  {
    ValueBound(suffix);
    FixedOfValue(suffix);
    UeCodeIs(n, |suffix|, Value(suffix), suffix);
    UeRange(n);
  }

  ghost predicate ExhaustedAt(bits: seq<Bit>, pos: nat)
    requires pos <= |bits|
  {
    exists n: nat :: n <= MAX_UE && bits[pos..] < UeCode(n)
  }

  lemma ExhaustedInZeros(rest: seq<Bit>, z: nat)
    requires z <= MAX_EXP_GOLOMB_ZEROS && rest == ZeroBits(z)
    ensures exists n: nat :: n <= MAX_UE && rest < UeCode(n)
  {
    var n := Pow2(z) - 1;
    Log2Unique(n + 1, z);
    UeRange(n);
    assert UeCode(n)[..z] == rest;
  }

  lemma ExhaustedInSuffix(rest: seq<Bit>, z: nat, known: seq<Bit>)
    requires z <= MAX_EXP_GOLOMB_ZEROS && |known| < z && rest == ZeroBits(z) + [1] + known
    ensures exists n: nat :: n <= MAX_UE && rest < UeCode(n)
  {
    var suffix := known + ZeroBits(z - |known|);
    ValueBound(suffix);
    var n := Pow2(z) - 1 + Value(suffix);
    CodeOfSuffix(n, suffix);
    assert UeCode(n) == rest + ZeroBits(z - |known|);
  }

  // Reading fails exactly on 32 zeros, or when the remaining bits are cut short: a proper prefix
  // of some codeword.
  lemma UeFailsExactly(bits: seq<Bit>, pos: nat)
    requires pos <= |bits|
    ensures !ReadUe(bits, pos).ok <==> ZeroBits(32) <= bits[pos..] || ExhaustedAt(bits, pos)
  {
    LeadingZerosMeaning(bits, pos);
    var z := LeadingZeros(bits, pos);
    if z > MAX_EXP_GOLOMB_ZEROS {
      assert bits[pos..][..32] == ZeroBits(32);
    } else if pos + 2 * z + 1 > |bits| {
      if pos + z == |bits| {
        ExhaustedInZeros(bits[pos..], z);
      } else {
        assert bits[pos..] == ZeroBits(z) + [1] + bits[pos + z + 1..];
        ExhaustedInSuffix(bits[pos..], z, bits[pos + z + 1..]);
      }
    } else {
      assert bits[pos..][z] == 1;
      if ExhaustedAt(bits, pos) {
        var n: nat :| n <= MAX_UE && bits[pos..] < UeCode(n);
        CodeNotLonger(bits, pos, n);
      }
    }
  }

  lemma CodeNotLonger(bits: seq<Bit>, pos: nat, n: nat)
    requires pos <= |bits| && ReadUe(bits, pos).ok && bits[pos..] <= UeCode(n)
    ensures bits[pos..] == UeCode(n)
  {
    LeadingZerosMeaning(bits, pos);
    var code := UeCode(n);
    var z := LeadingZeros(bits, pos);
    forall i: nat | i <= z
      ensures code[i] == bits[pos + i]
    {
      assert code[i] == bits[pos..][i];
    }
    LeadingZerosAre(code, 0, z);
    LeadingZerosAre(code, 0, Log2(n + 1));
  }

  lemma CutOut(bits: seq<Bit>, more: seq<Bit>, from: nat, to: nat)
    requires bits <= more && from <= to <= |bits|
    ensures more == more[..from] + bits[from..to] + more[to..]
  {
  }

  // Later bits never change a value that was read.
  lemma UeExtends(bits: seq<Bit>, more: seq<Bit>, pos: nat)
    requires pos <= |bits| && bits <= more && ReadUe(bits, pos).ok
    ensures ReadUe(more, pos) == ReadUe(bits, pos)
  {
    var r := ReadUe(bits, pos);
    UeReadsOnlyCodes(bits, pos);
    CutOut(bits, more, pos, r.next);
    UeInvertsCode(more[..pos], r.value, more[r.next..]);
  }

  //
  // Properties of the ID parsers.
  //

  // An SPS payload up to its ID (section 7.3.2.1.1): profile, constraint flags, level, ID.
  function SpsFields(profile: Byte, flags: Byte, level: Byte, id: nat): seq<Bit> {
    Fixed(profile, 8) + Fixed(flags, 8) + Fixed(level, 8) + UeCode(id)
  }

  // A PPS payload up to its SPS ID (section 7.3.2.2).
  function PpsFields(id: nat, spsId: nat): seq<Bit> {
    UeCode(id) + UeCode(spsId)
  }

  // A slice header up to its PPS ID (section 7.3.3).
  function SliceFields(firstMb: nat, sliceType: nat, ppsId: nat): seq<Bit> {
    UeCode(firstMb) + UeCode(sliceType) + UeCode(ppsId)
  }

  // The NAL unit that carries the fields and then any tail, escaped for transport.
  function NalOf(header: Byte, fields: seq<Bit>, tail: seq<Bit>): seq<Byte>
    requires |fields + tail| % 8 == 0
  {
    [header] + Escape(Pack(fields + tail))
  }

  // No 00 00 03 among the payload bytes that hold the fields. What follows them is free.
  ghost predicate FieldsUnstuffed(fields: seq<Bit>, tail: seq<Bit>)
    requires |fields + tail| % 8 == 0
  {
    !Contains(Pack(fields + tail)[..(|fields| + 7) / 8], STUFFED)
  }

  lemma {:induction false} StripShortens(out: seq<Byte>, s: seq<Byte>)
    ensures |StripOnto(out, s)| <= |out| + |s|
    decreases |s|
  {
    if s != [] {
      StripShortens(Keep(out, s[0]), s[1..]);
    }
  }

  // The parsers see the packed fields first, whatever the tail is.
  lemma FieldsAreRead(header: Byte, fields: seq<Bit>, tail: seq<Bit>)
    requires |fields + tail| % 8 == 0 && FieldsUnstuffed(fields, tail)
    ensures var nalu := NalOf(header, fields, tail);
            fields <= NalBits(nalu) && |NalBits(nalu)| <= 8 * (|nalu| - 1)
  {
    var payload := Pack(fields + tail);
    var k := (|fields| + 7) / 8;
    var nalu := NalOf(header, fields, tail);
    assert nalu[1..] == Escape(payload) && payload == payload[..k] + payload[k..];
    ReaderKeepsUnstuffedPrefix(payload[..k], payload[k..]);
    BitsOfPrefix(payload[..k], Stripped(nalu[1..]));
    PackRoundTrip(fields + tail);
    BitsOfPrefix(payload[..k], payload);
    assert fields == (fields + tail)[..|fields|] == BitsOf(payload[..k])[..|fields|];
    StripShortens([], nalu[1..]);
  }

  lemma FieldIsRead(bits: seq<Bit>, before: seq<Bit>, n: nat)
    requires n <= MAX_UE && before + UeCode(n) <= bits
    ensures ReadUe(bits, |before|) == UeRead(true, n, |before + UeCode(n)|)
  {
    var after := bits[|before + UeCode(n)|..];
    assert bits == before + UeCode(n) + after;
    UeInvertsCode(before, n, after);
  }

  lemma PackedSpsId(header: Byte, profile: Byte, flags: Byte, level: Byte, id: nat, tail: seq<Bit>)
    requires id <= MAX_UE
    requires var fields := SpsFields(profile, flags, level, id);
             |fields + tail| % 8 == 0 && FieldsUnstuffed(fields, tail)
    ensures SpsIdOf(NalOf(header, SpsFields(profile, flags, level, id), tail))
            == if id <= MAX_SPS_ID then Some(id) else None
  {
    var fields := SpsFields(profile, flags, level, id);
    FieldsAreRead(header, fields, tail);
    FieldIsRead(NalBits(NalOf(header, fields, tail)), Fixed(profile, 8) + Fixed(flags, 8) + Fixed(level, 8), id);
  }

  lemma PackedPpsIds(header: Byte, id: nat, spsId: nat, tail: seq<Bit>)
    requires id <= MAX_UE && spsId <= MAX_UE
    requires var fields := PpsFields(id, spsId);
             |fields + tail| % 8 == 0 && FieldsUnstuffed(fields, tail)
    ensures PpsIdsOf(NalOf(header, PpsFields(id, spsId), tail))
            == if id <= MAX_PPS_ID && spsId <= MAX_SPS_ID then Some((id, spsId)) else None
  {
    var fields := PpsFields(id, spsId);
    FieldsAreRead(header, fields, tail);
    var bits := NalBits(NalOf(header, fields, tail));
    assert [] + UeCode(id) == UeCode(id) == fields[..|UeCode(id)|];
    FieldIsRead(bits, [], id);
    FieldIsRead(bits, UeCode(id), spsId);
  }

  lemma PackedSlicePpsId(header: Byte, firstMb: nat, sliceType: nat, ppsId: nat, tail: seq<Bit>)
    requires firstMb <= MAX_UE && sliceType <= MAX_UE && ppsId <= MAX_UE
    requires var fields := SliceFields(firstMb, sliceType, ppsId);
             |fields + tail| % 8 == 0 && FieldsUnstuffed(fields, tail)
    ensures SlicePpsIdOf(NalOf(header, SliceFields(firstMb, sliceType, ppsId), tail))
            == if ppsId <= MAX_PPS_ID then Some(ppsId) else None
  {
    var fields := SliceFields(firstMb, sliceType, ppsId);
    FieldsAreRead(header, fields, tail);
    var bits := NalBits(NalOf(header, fields, tail));
    var two := UeCode(firstMb) + UeCode(sliceType);
    assert [] + UeCode(firstMb) == UeCode(firstMb) == fields[..|UeCode(firstMb)|];
    assert two == fields[..|two|];
    FieldIsRead(bits, [], firstMb);
    FieldIsRead(bits, UeCode(firstMb), sliceType);
    FieldIsRead(bits, two, ppsId);
  }

  // An SPS whose packed ID is 0 and whose level byte is dropped: the parser rejects it.
  lemma RejectedSpsId(nalu: seq<Byte>)
    requires nalu == [0x67] + (STUFFED + [3, 0x80])
    ensures Unescape(nalu[1..]) == STUFFED + [0x80]
    ensures ReadUe(BitsOf(STUFFED + [0x80]), SPS_HEADER_BITS) == UeRead(true, 0, SPS_HEADER_BITS + 1)
    ensures SpsIdOf(nalu) == None
  {
    assert nalu[1..] == STUFFED + [3, 0x80];
    RejectedBytes();
    assert BitOf(0x80, 0) == 1 by { assert ShiftRight(8, 3) == 1 && ShiftRight(32, 5) == 1; }
    OneBitField(BitsOf(STUFFED + [0x80]), 24);
  }

  lemma RejectedBytes()
    ensures Unescape(STUFFED + [3, 0x80]) == STUFFED + [0x80]
    ensures Stripped(STUFFED + [3, 0x80]) == [0, 0, 0x80]
  {
    var end: seq<Byte> := [0x80];
    assert [3, 0x80] == [3] + end;
    UnescapeDropsThree([3] + end);
    UnescapeKeeps(3, end);
    UnescapeKeeps(0x80, []);
    assert end == [0x80] + [];
    assert [0, 0] + ([3] + end) == STUFFED + end;
    StripAppend([], STUFFED, [3] + end);
    StripThree([]);
    assert ([3] + end)[1..] == end && end[1..] == [];
    assert StripOnto([0, 0], end) == StripOnto([0, 0] + end, []);
    assert [0, 0] + end == [0, 0, 0x80];
  }

  lemma OneBitField(bits: seq<Bit>, pos: nat)
    requires pos < |bits| && bits[pos] == 1
    ensures ReadUe(bits, pos) == UeRead(true, 0, pos + 1)
  {
  }

  lemma NalBitsExtend(nalu: seq<Byte>, more: seq<Byte>)
    requires nalu != []
    ensures NalBits(nalu) <= NalBits(nalu + more)
  {
    assert (nalu + more)[1..] == nalu[1..] + more;
    StripAppend([], nalu[1..], more);
    StripKeepsPrefix(Stripped(nalu[1..]), more);
    BitsOfPrefix(Stripped(nalu[1..]), Stripped((nalu + more)[1..]));
  }

  // Appended bytes never change an ID that parsed.
  lemma ParsedIdsAreStable(nalu: seq<Byte>, more: seq<Byte>)
    ensures SpsIdOf(nalu).Some? ==> SpsIdOf(nalu + more) == SpsIdOf(nalu)
    ensures PpsIdsOf(nalu).Some? ==> PpsIdsOf(nalu + more) == PpsIdsOf(nalu)
    ensures SlicePpsIdOf(nalu).Some? ==> SlicePpsIdOf(nalu + more) == SlicePpsIdOf(nalu)
  {
    if nalu != [] {
      NalBitsExtend(nalu, more);
      if SpsIdOf(nalu).Some? {
        UeExtends(NalBits(nalu), NalBits(nalu + more), SPS_HEADER_BITS);
      }
      if PpsIdsOf(nalu).Some? {
        PairIsStable(NalBits(nalu), NalBits(nalu + more));
      }
      if SlicePpsIdOf(nalu).Some? {
        SliceIdIsStable(nalu, more);
      }
    }
  }

  lemma SliceIdIsStable(nalu: seq<Byte>, more: seq<Byte>)
    requires SlicePpsIdOf(nalu).Some?
    ensures SlicePpsIdOf(nalu + more) == SlicePpsIdOf(nalu)
  {
    var bits := NalBits(nalu);
    var bits' := NalBits(nalu + more);
    NalBitsExtend(nalu, more);
    PairIsStable(bits, bits');
    ReadUeBounds(bits, 0);
    var first := ReadUe(bits, 0);
    ReadUeBounds(bits, first.next);
    var kind := ReadUe(bits, first.next);
    UeExtends(bits, bits', kind.next);
    assert ReadUe(bits', 0) == first && ReadUe(bits', first.next) == kind;
  }

  lemma PairIsStable(bits: seq<Bit>, more: seq<Bit>)
    requires bits <= more && ReadUe(bits, 0).ok && ReadUe(bits, ReadUe(bits, 0).next).ok
    ensures ReadUe(more, 0) == ReadUe(bits, 0)
    ensures ReadUe(more, ReadUe(bits, 0).next) == ReadUe(bits, ReadUe(bits, 0).next)
  {
    UeExtends(bits, more, 0);
    UeExtends(bits, more, ReadUe(bits, 0).next);
  }
}
