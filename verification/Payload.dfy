/** The payload check of the frame writer, with the STAP-A layout of section 5.7.1 of RFC 6184. */
module Payload {
  import opened Wire

  const STAP_A: nat := 24
  const FU_A: nat := 28
  const MIN_FU_A_PAYLOAD: nat := 3

  function Kind(b: Byte): nat {
    b % 32
  }

  function BigEndian16(s: seq<Byte>, at: nat): nat
    requires at + 2 <= |s|
  {
    0x100 * (s[at] as nat) + s[at + 1] as nat
  }

  predicate IsUnit(unit: seq<Byte>) {
    1 <= |unit| < 0x1_0000
  }

  // One aggregation unit: a 16-bit big-endian size and that many bytes.
  function UnitBytes(unit: seq<Byte>): seq<Byte>
    requires IsUnit(unit)
  {
    [|unit| / 0x100, |unit| % 0x100] + unit
  }

  function UnitsBytes(units: seq<seq<Byte>>): seq<Byte>
    requires forall u :: u in units ==> IsUnit(u)
  {
    if units == [] then [] else UnitBytes(units[0]) + UnitsBytes(units[1..])
  }

  ghost predicate AggregatesAs(s: seq<Byte>, units: seq<seq<Byte>>) {
    (forall u :: u in units ==> IsUnit(u)) && s == UnitsBytes(units)
  }

  ghost predicate IsAggregation(s: seq<Byte>) {
    exists units :: AggregatesAs(s, units)
  }

  // Single NAL unit packets, FU-A with a body, or a well formed STAP-A.
  ghost predicate IsValid(payload: seq<Byte>) {
    && payload != []
    && var kind := Kind(payload[0]);
       || 0 < kind < STAP_A
       || (kind == FU_A && |payload| >= MIN_FU_A_PAYLOAD)
       || (kind == STAP_A && IsAggregation(payload[1..]))
  }

  lemma FirstUnit(s: seq<Byte>, units: seq<seq<Byte>>)
    requires AggregatesAs(s, units) && s != []
    ensures units != [] && |s| >= 3
    ensures var size := BigEndian16(s, 0);
            && 1 <= size && 2 + size <= |s| && units[0] == s[2..2 + size]
            && AggregatesAs(s[2 + size..], units[1..])
  {
    var u := units[0];
    assert u in units && forall v :: v in units[1..] ==> v in units;
    assert s == [|u| / 0x100, |u| % 0x100] + u + UnitsBytes(units[1..]);
    assert s[0] == |u| / 0x100 && s[1] == |u| % 0x100;
    assert BigEndian16(s, 0) == |u|;
    assert s[2..2 + |u|] == u && s[2 + |u|..] == UnitsBytes(units[1..]);
  }

  lemma PrependUnit(s: seq<Byte>, units: seq<seq<Byte>>)
    requires |s| >= 2
    requires var size := BigEndian16(s, 0); 1 <= size && 2 + size <= |s| && AggregatesAs(s[2 + size..], units)
    ensures AggregatesAs(s, [s[2..2 + BigEndian16(s, 0)]] + units)
  {
  }

  // One turn of the offset loop: the rest is an aggregation exactly when a whole unit stands at
  // its front and what follows is an aggregation too.
  lemma AggregationStep(s: seq<Byte>)
    requires s != []
    ensures IsAggregation(s) <==>
            && |s| >= 2
            && var size := BigEndian16(s, 0); 1 <= size && 2 + size <= |s| && IsAggregation(s[2 + size..])
  {
    if IsAggregation(s) {
      var units :| AggregatesAs(s, units);
      FirstUnit(s, units);
    }
    if |s| >= 2 {
      var size := BigEndian16(s, 0);
      if 1 <= size && 2 + size <= |s| && IsAggregation(s[2 + size..]) {
        var units :| AggregatesAs(s[2 + size..], units);
        PrependUnit(s, units);
      }
    }
  }

  // The division into units is unique.
  lemma {:induction false} AggregationIsUnique(s: seq<Byte>, a: seq<seq<Byte>>, b: seq<seq<Byte>>)
    requires AggregatesAs(s, a) && AggregatesAs(s, b)
    ensures a == b
    decreases |s|
  {
    if s == [] {
      assert a == [] && b == [];
    } else {
      FirstUnit(s, a);
      FirstUnit(s, b);
      AggregationIsUnique(s[2 + BigEndian16(s, 0)..], a[1..], b[1..]);
      assert a == [a[0]] + a[1..] && b == [b[0]] + b[1..];
    }
  }

  // Which payloads are valid, type by type (table 1 of RFC 6184): every single NAL unit, a STAP-A of
  // any units, a fragment with a body; nothing else.
  lemma ValidExactly(payload: seq<Byte>)
    ensures payload == [] ==> !IsValid(payload)
    ensures payload != [] && 1 <= payload[0] % 32 <= 23 ==> IsValid(payload)
    ensures payload != [] && payload[0] % 32 == 24 ==>
              (IsValid(payload) <==>
               exists units :: (forall u | u in units :: 1 <= |u| <= 65535) && AggregatesAs(payload[1..], units))
    ensures payload != [] && payload[0] % 32 == 28 ==> (IsValid(payload) <==> |payload| >= 3)
    ensures payload != [] && payload[0] % 32 in {0, 25, 26, 27, 29, 30, 31} ==> !IsValid(payload)
  {
    if payload != [] && IsAggregation(payload[1..]) {
      var units :| AggregatesAs(payload[1..], units);
      assert forall u | u in units :: IsUnit(u);
    }
  }

  // The FU indicator and FU header of section 5.8 of RFC 6184 in front of one part of a NAL unit.
  function Fragment(header: Byte, part: seq<Byte>, first: bool, last: bool): seq<Byte> {
    [header / 32 * 32 + 28, (if first then 128 else 0) + (if last then 64 else 0) + header % 32] + part
  }

  // The payloads that carry a NAL unit with this header and this body, cut into parts.
  function Fragments(header: Byte, parts: seq<seq<Byte>>): seq<seq<Byte>> {
    seq(|parts|, i requires 0 <= i < |parts| => Fragment(header, parts[i], i == 0, i == |parts| - 1))
  }

  // However a NAL unit is cut into non-empty parts, every fragment of it is valid.
  lemma FragmentsAreValid(header: Byte, parts: seq<seq<Byte>>)
    requires forall part | part in parts :: part != []
    ensures forall f | f in Fragments(header, parts) :: IsValid(f)
  {
    forall f | f in Fragments(header, parts)
      ensures IsValid(f)
    {
      var i :| 0 <= i < |parts| && f == Fragment(header, parts[i], i == 0, i == |parts| - 1);
      assert parts[i] in parts;
      ValidExactly(f);
    }
  }

  method ValidH264Payload(payload: seq<Byte>) returns (valid: bool)
    ensures valid == IsValid(payload)
  {
    if |payload| == 0 {
      return false;
    }
    var kind := Kind(payload[0]);
    if 0 < kind < STAP_A {
      return true;
    } else if kind == FU_A {
      return |payload| >= MIN_FU_A_PAYLOAD;
    } else if kind == STAP_A {
      var offset := 1;
      while offset < |payload|
        invariant 1 <= offset <= |payload|
        invariant IsAggregation(payload[1..]) == IsAggregation(payload[offset..])
        decreases |payload| - offset
      {
        AggregationStep(payload[offset..]);
        if offset + 2 > |payload| {
          return false;
        }
        var size := BigEndian16(payload, offset);
        offset := offset + 2;
        if size == 0 || offset + size > |payload| {
          return false;
        }
        assert payload[offset - 2..][2 + size..] == payload[offset + size..];
        offset := offset + size;
      }
      assert AggregatesAs(payload[offset..], []);
      return true;
    } else {
      return false;
    }
  }
}
