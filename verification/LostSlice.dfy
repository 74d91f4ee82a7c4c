/**
 A frame the writer takes for whole and that is not: of an access unit of two IDR slices, each in its
 own packet, the first is lost. The writer forwards the second alone, and predictive frames after it.
 */
module LostSlice {
  import opened Wire
  import opened Bits
  import opened H264Bits
  import opened AnnexB
  import opened FrameGate
  import opened FrameRuns
  import opened FrameGuarantees
  import opened FrameLoss
  import PackedIds
  import opened Rbsp
  import Payload

  // A parameter set pair, an IDR slice that uses it, and two more such slices.
  datatype Slices = Slices(
    spsId: nat, ppsId: nat, sps: seq<Byte>, pps: seq<Byte>, idr: seq<Byte>, first: seq<Byte>, second: seq<Byte>)

  // Short enough for one packet, without a start code, and its IDs can be read.
  ghost predicate IsShort(n: seq<Byte>) {
    1 <= |n| < 0x1_0000 && !Contains(n, START_CODE) && Parses(n)
  }

  ghost predicate IsIdrSlice(n: seq<Byte>, ppsId: nat) {
    KindOf(n) == IDR && SlicePpsIdOf(n) == Some(ppsId) && IsShort(n)
  }

  ghost predicate AreSliced(x: Slices) {
    && IsSpsFor(x.sps, x.spsId) && IsShort(x.sps)
    && KindOf(x.pps) == PPS && PpsIdsOf(x.pps) == Some((x.ppsId, x.spsId)) && IsShort(x.pps)
    && IsIdrSlice(x.idr, x.ppsId) && IsIdrSlice(x.first, x.ppsId) && IsIdrSlice(x.second, x.ppsId)
  }

  function Units(x: Slices): seq<seq<Byte>> {
    [x.sps, x.pps, x.idr]
  }

  // A STAP-A payload of these units.
  function Aggregation(x: Slices): seq<Byte>
    requires Payload.IsUnit(x.sps) && Payload.IsUnit(x.pps) && Payload.IsUnit(x.idr)
  {
    [0x78] + (Payload.UnitBytes(x.sps) + (Payload.UnitBytes(x.pps) + Payload.UnitBytes(x.idr)))
  }

  // Depacketizes single NAL units, and this one aggregation. Every packet may start a partition.
  function SliceDepacketizer(aggregation: seq<Byte>, joined: seq<Byte>): Depacketizer<()> {
    Depacketizer(
      (),
      (s: (), p: seq<Byte>) => ((), Some(if p == aggregation then joined else START_CODE + p)),
      (p: seq<Byte>) => true)
  }

  // Sent: a first IDR unit in one packet, then each slice of a second in its own.
  function SlicedStream(aggregation: seq<Byte>, first: seq<Byte>, second: seq<Byte>): seq<Packet> {
    [Packet(0, 0, true, aggregation), Packet(1, 1, false, first), Packet(2, 1, true, second)]
  }

  lemma SplitOfUnits(nalus: seq<seq<Byte>>)
    requires forall n | n in nalus :: !Contains(n, START_CODE)
    ensures Split(Join(nalus)) == [[]] + nalus
  {
    assert !Contains([], START_CODE);
    SplitUnits([], nalus);
    assert [] + Join(nalus) == Join(nalus);
  }

  lemma {:induction false} AttemptSucceeds(fails: nat -> bool, log: seq<seq<Byte>>, chunks: seq<seq<Byte>>)
    requires forall k: nat :: !fails(k)
    ensures Attempt(fails, log, chunks).1
    decreases |chunks|
  {
    if chunks != [] {
      AttemptSucceeds(fails, log + [chunks[0]], chunks[1..]);
    }
  }

  lemma WriteSucceeds<D>(fails: nat -> bool, log: seq<seq<Byte>>, g: Gate<D>)
    requires forall k: nat :: !fails(k)
    ensures WriteFrame(fails, log, g).verdict != Failed
  {
    var c := Collect(g.stored, g.frame);
    if IsAccepted(c) {
      var writes := SetWrites(SetsFor(c.stored, c.references));
      AttemptSucceeds(fails, log, writes);
      AttemptSucceeds(fails, log, [g.frame]);
      AttemptSucceeds(fails, Attempt(fails, log, writes).0, [g.frame]);
    }
  }

  lemma StepSucceeds<D>(d: Depacketizer<D>, fails: nat -> bool, g: Gate<D>, log: seq<seq<Byte>>, p: Packet)
    requires forall k: nat :: !fails(k)
    ensures Step(d, fails, g, log, p).verdict != Failed
  {
    WriteSucceeds(fails, log, Admit(d, g, p));
  }

  lemma SinglePacketUnit<D>(d: Depacketizer<D>, p: Packet, data: seq<Byte>)
    requires Payload.IsValid(p.payload) && d.head(p.payload) && |data| <= MAX_FRAME_BYTES
    requires d.unmarshal(d.start, p.payload).1 == Some(data)
    ensures IsIntact(d, [p]) && Reassembled(d, [p]) == data
  {
    assert [p][..0] == [];
    assert IsIntact(d, []) && DepAfter(d, []) == d.start;
    assert [] + data == data;
  }

  // What the stored sets make of the second slice alone.
  lemma SecondSliceIsAccepted(stored: Stored, received: seq<seq<Byte>>, x: Slices)
    requires AreSliced(x) && HoldsLatest(stored, received) && received == [[]] + Units(x)
    ensures var c := Collect(stored, Join([x.second])); IsAccepted(c) && c.hasIdr
  {
    PairIsKnown(stored, received, x);
    SliceIsAccepted(stored, x.second, x.ppsId);
  }

  lemma SliceIsAccepted(stored: Stored, n: seq<Byte>, ppsId: nat)
    requires IsIdrSlice(n, ppsId) && IsKnown(stored, ppsId)
    ensures var c := Collect(stored, Join([n])); IsAccepted(c) && c.hasIdr
  {
    SplitOfUnits([n]);
    CollectSecond(stored, n);
  }

  lemma PairIsKnown(stored: Stored, received: seq<seq<Byte>>, x: Slices)
    requires AreSliced(x) && HoldsLatest(stored, received) && received == [[]] + Units(x)
    ensures IsKnown(stored, x.ppsId)
  {
    assert received[1] == x.sps && received[2] == x.pps;
    OnlyPpsReceived(x);
    LatestIsKnown(stored, received, x.spsId, x.ppsId, x.sps, x.pps);
  }

  lemma OnlyPpsReceived(x: Slices)
    requires AreSliced(x)
    ensures forall n | n in [[]] + Units(x) && IsPpsFor(n, x.ppsId) :: n == x.pps
  {
    forall n | n in [[]] + Units(x) && IsPpsFor(n, x.ppsId)
      ensures n == x.pps
    {
      OnlyPps(x, n);
    }
  }

  lemma OnlyPps(x: Slices, n: seq<Byte>)
    requires AreSliced(x) && n in [[]] + Units(x) && KindOf(n) == PPS
    ensures n == x.pps
  {
    assert n == [] || n in Units(x);
  }

  lemma LatestIsKnown(
    stored: Stored, received: seq<seq<Byte>>, spsId: nat, ppsId: nat, sps: seq<Byte>, pps: seq<Byte>)
    requires HoldsLatest(stored, received) && sps in received && pps in received
    requires IsSpsFor(sps, spsId) && IsPpsFor(pps, ppsId) && PpsIdsOf(pps) == Some((ppsId, spsId))
    requires forall n | n in received && IsPpsFor(n, ppsId) :: n == pps
    ensures IsKnown(stored, ppsId)
  {
    assert HoldsLatestPps(stored.pps, received, ppsId);
    assert HoldsLatestSps(stored.sps, received, spsId);
  }

  lemma CollectSecond(stored: Stored, second: seq<Byte>)
    requires KindOf(second) == IDR && SlicePpsIdOf(second).Some?
    ensures CollectFrom(stored, [], false, [[]] + [second])
            == Collected(stored, [SlicePpsIdOf(second).value], true, true)
  {
    var nalus := [[]] + [second];
    assert nalus[1..] == [second] && [second][1..] == [];
    assert CollectFrom(stored, [], false, nalus) == CollectFrom(stored, [] + [], false, [second]);
  }

  lemma {:induction false} ReadableUnits(nalus: seq<seq<Byte>>)
    requires forall n | n in nalus :: Parses(n)
    ensures Readable(nalus) == nalus
  {
    if nalus != [] {
      assert nalus[0] in nalus;
      ReadableUnits(nalus[1..]);
      assert [nalus[0]] + nalus[1..] == nalus;
    }
  }

  lemma JoinStep(nalu: seq<Byte>, nalus: seq<seq<Byte>>)
    ensures |Join([nalu] + nalus)| == 4 + |nalu| + |Join(nalus)|
  {
    assert ([nalu] + nalus)[1..] == nalus;
  }

  lemma JoinOfThree(a: seq<Byte>, b: seq<Byte>, c: seq<Byte>)
    ensures |Join([a, b, c])| == 12 + |a| + |b| + |c|
  {
    JoinStep(c, []);
    JoinStep(b, [c]);
    JoinStep(a, [b, c]);
    assert [c] + [] == [c] && [b] + [c] == [b, c] && [a] + [b, c] == [a, b, c];
  }

  function Never(k: nat): bool {
    false
  }

  lemma StapIsValid(payload: seq<Byte>, units: seq<seq<Byte>>)
    requires payload != [] && Payload.Kind(payload[0]) == Payload.STAP_A
    requires Payload.AggregatesAs(payload[1..], units)
    ensures Payload.IsValid(payload)
  {
  }

  lemma AggregationIsValid(x: Slices)
    requires Payload.IsUnit(x.sps) && Payload.IsUnit(x.pps) && Payload.IsUnit(x.idr)
    ensures Payload.IsValid(Aggregation(x))
  {
    UnitsOfThree(x.sps, x.pps, x.idr);
    assert Aggregation(x)[1..] == Payload.UnitsBytes([x.sps, x.pps, x.idr]);
    StapIsValid(Aggregation(x), [x.sps, x.pps, x.idr]);
  }

  lemma UnitsStep(u: seq<Byte>, units: seq<seq<Byte>>)
    requires Payload.IsUnit(u) && forall v | v in units :: Payload.IsUnit(v)
    ensures Payload.UnitsBytes([u] + units) == Payload.UnitBytes(u) + Payload.UnitsBytes(units)
  {
    assert ([u] + units)[1..] == units;
  }

  lemma UnitsOfThree(a: seq<Byte>, b: seq<Byte>, c: seq<Byte>)
    requires Payload.IsUnit(a) && Payload.IsUnit(b) && Payload.IsUnit(c)
    ensures Payload.UnitsBytes([a, b, c])
            == Payload.UnitBytes(a) + (Payload.UnitBytes(b) + Payload.UnitBytes(c))
  {
    UnitsStep(c, []);
    UnitsStep(b, [c]);
    UnitsStep(a, [b, c]);
    assert [c] + [] == [c] && [b] + [c] == [b, c] && [a] + [b, c] == [a, b, c];
    assert Payload.UnitBytes(c) + [] == Payload.UnitBytes(c);
  }

  // After the first unit exactly its own units are received.
  lemma FirstUnitIsReceived(d: Depacketizer<()>, p: Packet, nalus: seq<seq<Byte>>)
    requires p.marker && IsIntact(d, [p]) && Reassembled(d, [p]) == Join(nalus)
    requires forall n | n in nalus :: IsShort(n)
    ensures Received(d, [p]) == [[]] + nalus
  {
    SinglePacket(p);
    ReadableOfJoin(nalus);
    assert [p][..0] == [] && Received(d, []) == [];
  }

  lemma SinglePacket(p: Packet)
    ensures Unit([p]) == [p]
  {
    UnitStep([], p);
    assert [] + [p] == [p];
  }

  lemma ReadableOfJoin(nalus: seq<seq<Byte>>)
    requires forall n | n in nalus :: IsShort(n)
    ensures Readable(Split(Join(nalus))) == [[]] + nalus
  {
    SplitOfUnits(nalus);
    ReadableUnits([[]] + nalus);
  }

  lemma UnitsOfStream(sent: seq<Packet>)
    requires |sent| == 3 && sent[0].marker && !sent[1].marker && sent[1].timestamp == sent[2].timestamp
    ensures Unit([sent[0], sent[2]]) == [sent[2]] && Unit(sent) == [sent[1], sent[2]]
  {
    UnitStep([sent[0]], sent[2]);
    assert [sent[0]] + [sent[2]] == [sent[0], sent[2]];
    UnitStep([sent[0]], sent[1]);
    UnitStep([sent[0], sent[1]], sent[2]);
    assert [sent[0]] + [sent[1]] == [sent[0], sent[1]];
    assert [sent[0], sent[1]] + [sent[2]] == sent;
    assert Open([sent[0], sent[1]]) == [sent[1]];
    assert [sent[1]] + [sent[2]] == [sent[1], sent[2]];
  }

  lemma KeptPair(p: Packet, q: Packet)
    requires p.payload != [] && q.payload != []
    ensures Kept([p, q]) == [p, q]
  {
    assert [p, q][..1] == [p] && [p][..0] == [];
    assert Kept([p]) == Kept([]) + [p];
  }

  lemma SecondSliceIsSent(d: Depacketizer<()>, p: Packet, q: Packet, frame: seq<Byte>)
    requires p.payload != [] && q.payload != [] && q.marker && Unit([p, q]) == [q]
    requires IsIntact(d, [q]) && Reassembled(d, [q]) == frame
    requires var c := Collect(Run(d, Never, [p]).gate.stored, frame); IsAccepted(c) && c.hasIdr
    ensures var s := Run(d, Never, [p, q]);
            s.verdict == Sent(true) && s.gate.ready && s.log != [] && s.log[|s.log| - 1] == frame
  {
    assert [p] + [q] == [p, q];
    UnitsDecideOutput(d, Never, [p], q);
    RunStep(d, Never, [p], q);
    var r := Run(d, Never, [p]);
    StepSucceeds(d, Never, r.gate, r.log, q);
    HandedEndsWithFrame(Collect(r.gate.stored, frame), frame, true);
  }

  /**
   For any parameter set IDs and any slices: of three packets sent the middle one is lost, the last one is
   written as an IDR frame of its own, and the writer is ready for predictive frames.
   */
  lemma LostSliceGoesUnnoticed(x: Slices)
    requires AreSliced(x)
    ensures var aggregation := Aggregation(x);
            var d := SliceDepacketizer(aggregation, Join(Units(x)));
            var sent := SlicedStream(aggregation, x.first, x.second);
            IsLostUnnoticed(d, sent, START_CODE + x.second)
  {
    var aggregation := Aggregation(x);
    var d := SliceDepacketizer(aggregation, Join(Units(x)));
    var sent := SlicedStream(aggregation, x.first, x.second);
    SlicesDiffer(x);
    LostWith(x, d, sent);
  }

  lemma SlicesDiffer(x: Slices)
    requires AreSliced(x)
    ensures x.second != Aggregation(x) && x.first != [] && x.second != []
  {
    assert Payload.Kind(Aggregation(x)[0]) != Payload.Kind(x.second[0]);
  }

  lemma LostWith(x: Slices, d: Depacketizer<()>, sent: seq<Packet>)
    requires AreSliced(x) && sent == SlicedStream(Aggregation(x), x.first, x.second)
    requires d.head(Aggregation(x)) && d.head(x.second) && x.first != []
    requires d.unmarshal(d.start, Aggregation(x)).1 == Some(Join(Units(x)))
    requires d.unmarshal(d.start, x.second).1 == Some(START_CODE + x.second)
    ensures IsLostUnnoticed(d, sent, START_CODE + x.second)
  {
    FirstPacketIsStored(x, d, sent[0]);
    SecondSliceIsAccepted(Run(d, Never, [sent[0]]).gate.stored, [[]] + Units(x), x);
    SecondIsLost(d, sent, x.second);
  }

  lemma SecondIsLost(d: Depacketizer<()>, sent: seq<Packet>, second: seq<Byte>)
    requires |sent| == 3 && sent == SlicedStream(sent[0].payload, sent[1].payload, second)
    requires sent[0].payload != [] && sent[1].payload != []
    requires KindOf(second) == IDR && |second| < 0x1_0000 && d.head(second)
    requires d.unmarshal(d.start, second).1 == Some(START_CODE + second)
    requires var c := Collect(Run(d, Never, [sent[0]]).gate.stored, Join([second])); IsAccepted(c) && c.hasIdr
    ensures IsLostUnnoticed(d, sent, START_CODE + second)
  {
    SecondSliceIsIntact(d, sent[2], second);
    LostInStream(d, sent, START_CODE + second);
  }

  // Of the three packets sent the first and the last arrive; the last is written as a frame that is not
  // the whole unit it belongs to, and leaves the writer ready.
  ghost predicate IsLostUnnoticed(d: Depacketizer<()>, sent: seq<Packet>, frame: seq<Byte>) {
    && |sent| == 3 && IsSent(sent)
    && var ps := [sent[0], sent[2]];
       && Kept(ps) == ps && Arrived(sent, [0, 2], ps) && !IsWhole(sent, [0, 2], ps)
       && var s := Run(d, Never, ps);
          s.verdict == Sent(true) && s.gate.ready && s.log != [] && s.log[|s.log| - 1] == frame
  }

  lemma LostInStream(d: Depacketizer<()>, sent: seq<Packet>, frame: seq<Byte>)
    requires |sent| == 3 && IsSent(sent) && forall p | p in sent :: p.payload != []
    requires sent[0].marker && !sent[1].marker && sent[2].marker && sent[1].timestamp == sent[2].timestamp
    requires IsIntact(d, [sent[2]]) && Reassembled(d, [sent[2]]) == frame
    requires var c := Collect(Run(d, Never, [sent[0]]).gate.stored, frame); IsAccepted(c) && c.hasIdr
    ensures IsLostUnnoticed(d, sent, frame)
  {
    UnitsOfStream(sent);
    SecondSliceIsSent(d, sent[0], sent[2], frame);
    KeptPair(sent[0], sent[2]);
    OuterTwoArrive(sent);
  }

  lemma OuterTwoArrive(sent: seq<Packet>)
    requires |sent| == 3 && Unit([sent[0], sent[2]]) == [sent[2]] && Unit(sent) == [sent[1], sent[2]]
    ensures Arrived(sent, [0, 2], [sent[0], sent[2]]) && !IsWhole(sent, [0, 2], [sent[0], sent[2]])
  {
    assert sent[..3] == sent;
  }

  lemma SecondSliceIsIntact(d: Depacketizer<()>, p: Packet, second: seq<Byte>)
    requires p.payload == second && KindOf(second) == IDR && |second| < 0x1_0000 && d.head(second)
    requires d.unmarshal(d.start, second).1 == Some(START_CODE + second)
    ensures IsIntact(d, [p]) && Reassembled(d, [p]) == START_CODE + second == Join([second])
  {
    SinglePacketUnit(d, p, START_CODE + second);
    assert [second][1..] == [] && START_CODE + second + [] == START_CODE + second;
  }

  lemma FirstPacketIsStored(x: Slices, d: Depacketizer<()>, p: Packet)
    requires AreSliced(x) && p.payload == Aggregation(x) && p.marker && d.head(p.payload)
    requires d.unmarshal(d.start, p.payload).1 == Some(Join(Units(x)))
    ensures HoldsLatest(Run(d, Never, [p]).gate.stored, [[]] + Units(x))
  {
    AggregationFits(x);
    PacketIsStored(d, p, Units(x));
  }

  lemma AggregationFits(x: Slices)
    requires AreSliced(x)
    ensures Payload.IsValid(Aggregation(x)) && |Join(Units(x))| <= MAX_FRAME_BYTES
    ensures forall n | n in Units(x) :: IsShort(n)
  {
    AggregationIsValid(x);
    JoinOfThree(x.sps, x.pps, x.idr);
  }

  lemma PacketIsStored(d: Depacketizer<()>, p: Packet, nalus: seq<seq<Byte>>)
    requires p.payload != [] && Payload.IsValid(p.payload) && p.marker && d.head(p.payload)
    requires d.unmarshal(d.start, p.payload).1 == Some(Join(nalus)) && |Join(nalus)| <= MAX_FRAME_BYTES
    requires forall n | n in nalus :: IsShort(n)
    ensures HoldsLatest(Run(d, Never, [p]).gate.stored, [[]] + nalus)
  {
    SinglePacketUnit(d, p, Join(nalus));
    FirstUnitIsReceived(d, p, nalus);
    RunHoldsLatest(d, Never, [p]);
  }

  //
  // Such slices exist.
  //

  lemma PackedIsShort(header: Byte, fields: seq<Bit>, tail: seq<Bit>)
    requires |fields + tail| % 8 == 0 && |fields + tail| <= 64 && Parses(NalOf(header, fields, tail))
    ensures IsShort(NalOf(header, fields, tail))
  {
    EscapedUnitsAreClean(header, Pack(fields + tail));
    EscapeIsShort(0, Pack(fields + tail));
  }

  lemma {:induction false} EscapeIsShort(zeros: nat, s: seq<Byte>)
    requires zeros <= 2
    ensures |EscapeAfter(zeros, s)| <= 2 * |s| + 1
    decreases |s|
  {
    if s != [] {
      EscapeIsShort(if s[0] != 0 then 0 else if zeros == 2 then 1 else zeros + 1, s[1..]);
    }
  }

  lemma FieldLengths()
    ensures |SpsFields(0x42, 0, 0x1E, 0)| == 25 && |PpsFields(0, 0)| == 2 && |SliceFields(0, 0, 0)| == 3
  {
    assert |UeCode(0)| == 1;
  }

  lemma KindOfPacked(header: Byte, fields: seq<Bit>, tail: seq<Bit>)
    requires |fields + tail| % 8 == 0
    ensures KindOf(NalOf(header, fields, tail)) == Payload.Kind(header)
  {
  }

  lemma PackedSps(fields: seq<Bit>, tail: seq<Bit>)
    requires fields == SpsFields(0x42, 0, 0x1E, 0) && |fields + tail| == 32
    ensures IsSpsFor(NalOf(0x67, fields, tail), 0) && IsShort(NalOf(0x67, fields, tail))
  {
    PackedIds.SpsIdReadsBack(0x67, 0x42, 0, 0x1E, 0, tail);
    KindOfPacked(0x67, fields, tail);
    PackedIsShort(0x67, fields, tail);
  }

  lemma PackedPps(fields: seq<Bit>, tail: seq<Bit>)
    requires fields == PpsFields(0, 0) && |fields + tail| == 8
    ensures var n := NalOf(0x68, fields, tail); KindOf(n) == PPS && PpsIdsOf(n) == Some((0, 0)) && IsShort(n)
  {
    PackedIds.PpsIdsReadBack(0x68, 0, 0, tail);
    KindOfPacked(0x68, fields, tail);
    PackedIsShort(0x68, fields, tail);
  }

  lemma PackedSlice(fields: seq<Bit>, tail: seq<Bit>)
    requires fields == SliceFields(0, 0, 0) && |fields + tail| == 8
    ensures IsIdrSlice(NalOf(0x65, fields, tail), 0)
  {
    Pow2Monotone(1, PackedIds.FIRST_MB_BITS);
    PackedIds.SlicePpsIdReadsBack(0x65, 0, 0, 0, tail);
    KindOfPacked(0x65, fields, tail);
    PackedIsShort(0x65, fields, tail);
  }

  ghost predicate IsLostFor(x: Slices)
    requires AreSliced(x)
  {
    IsLostUnnoticed(
      SliceDepacketizer(Aggregation(x), Join(Units(x))),
      SlicedStream(Aggregation(x), x.first, x.second),
      START_CODE + x.second)
  }

  /** It does happen. */
  lemma SomeSliceIsLost()
    ensures exists x: Slices :: AreSliced(x) && IsLostFor(x)
  {
    SomeSlicesExist(ZeroBits(7));
    var x :| AreSliced(x);
    LostSliceGoesUnnoticed(x);
    assert IsLostFor(x);
  }

  lemma SomeSlicesExist(tail: seq<Bit>)
    requires |tail| == 7
    ensures exists x: Slices :: AreSliced(x)
  {
    FieldLengths();
    var s, p, i := SpsFields(0x42, 0, 0x1E, 0), PpsFields(0, 0), SliceFields(0, 0, 0);
    PackedSps(s, tail);
    PackedPps(p, tail[1..]);
    PackedSlice(i, tail[2..]);
    var slice := NalOf(0x65, i, tail[2..]);
    assert AreSliced(Slices(0, 0, NalOf(0x67, s, tail), NalOf(0x68, p, tail[1..]), slice, slice, slice));
  }
}
