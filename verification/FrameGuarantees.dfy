/** The frame writer's promises over every packet sequence, empty payloads and output errors included. */
module FrameGuarantees {
  import opened Wire
  import opened H264Bits
  import opened AnnexB
  import opened FrameGate
  import opened FrameRuns
  import Payload

  //
  // Packets without payload leave no trace.
  //

  ghost function Kept(ps: seq<Packet>): seq<Packet> {
    if ps == [] then [] else
    var before := Kept(ps[..|ps| - 1]);
    if ps[|ps| - 1].payload == [] then before else before + [ps[|ps| - 1]]
  }

  lemma {:induction false} KeptHasNoneEmpty(ps: seq<Packet>)
    ensures NoneEmpty(Kept(ps))
  {
    if ps != [] {
      KeptHasNoneEmpty(ps[..|ps| - 1]);
    }
  }

  lemma {:induction false} EmptyPayloadsAreInvisible<D>(d: Depacketizer<D>, fails: nat -> bool, ps: seq<Packet>)
    ensures Run(d, fails, ps).gate == Run(d, fails, Kept(ps)).gate
    ensures Run(d, fails, ps).log == Run(d, fails, Kept(ps)).log
    ensures ps != [] && ps[|ps| - 1].payload != [] ==> Run(d, fails, ps) == Run(d, fails, Kept(ps))
  {
    if ps != [] {
      var before := ps[..|ps| - 1];
      EmptyPayloadsAreInvisible(d, fails, before);
      if ps[|ps| - 1].payload != [] {
        assert Kept(ps)[..|Kept(ps)| - 1] == Kept(before);
      }
    }
  }

  lemma {:induction false} KeptPrefix(ps: seq<Packet>, k: nat)
    requires k <= |ps|
    ensures Kept(ps[..k]) <= Kept(ps)
    decreases |ps|
  {
    if k < |ps| {
      assert ps[..|ps| - 1][..k] == ps[..k];
      KeptPrefix(ps[..|ps| - 1], k);
    } else {
      assert ps[..k] == ps;
    }
  }

  //
  // Every written frame is one intact access unit.
  //

  // One access unit: from a unit start, one timestamp, the marker on the last packet only, a
  // partition head first, consecutive sequence numbers modulo 2^16.
  ghost predicate IsAccessUnit<D>(d: Depacketizer<D>, qs: seq<Packet>, i: nat) {
    && i < |qs| && UnitStartsAt(qs, i) && d.head(qs[i].payload)
    && qs[|qs| - 1].marker
    && (forall k :: i <= k < |qs| - 1 ==> !qs[k].marker)
    && (forall k :: i <= k < |qs| ==> qs[k].timestamp == qs[i].timestamp && Payload.IsValid(qs[k].payload))
    && (forall k :: i <= k < |qs| - 1 ==> qs[k + 1].sequence == NextSequence(qs[k].sequence))
  }

  // A frame made of the access unit that ends the stream: the in-order concatenation of what a
  // depacketizer in its start state returns for its packets, at most 8 MiB of it.
  ghost predicate IsFrameOf<D>(d: Depacketizer<D>, qs: seq<Packet>, frame: seq<Byte>) {
    && qs != [] && IsAccessUnit(d, qs, UnitStart(qs))
    && IsIntact(d, qs[UnitStart(qs)..]) && frame == Reassembled(d, qs[UnitStart(qs)..])
    && |frame| <= 8 * 1024 * 1024
  }

  lemma IntactUnitIsFrame<D>(d: Depacketizer<D>, qs: seq<Packet>)
    requires qs != [] && qs[|qs| - 1].marker && IsIntact(d, Unit(qs))
    ensures IsFrameOf(d, qs, Reassembled(d, Unit(qs)))
  {
    var us := Unit(qs);
    var i := UnitStart(qs);
    UnitMeaning(qs);
    IntactMeaning(d, us);
    forall k | i <= k < |qs|
      ensures Payload.IsValid(qs[k].payload)
    {
      PacketInUnit(d, us, k - i);
    }
    forall k | i <= k < |qs| - 1
      ensures qs[k + 1].sequence == NextSequence(qs[k].sequence)
    {
      PacketInUnit(d, us, k - i + 1);
    }
    PacketInUnit(d, us, 0);
  }

  lemma PacketInUnit<D>(d: Depacketizer<D>, us: seq<Packet>, j: nat)
    requires IsIntact(d, us) && j < |us|
    ensures Payload.IsValid(us[j].payload)
    ensures if j == 0 then d.head(us[0].payload) else us[j].sequence == NextSequence(us[j - 1].sequence)
  {
  }

  // From r to s, an accepted frame was handed over, up to the first failing write, and its sets stored.
  ghost predicate HandsOver<D>(r: Stepped<D>, s: Stepped<D>, frame: seq<Byte>) {
    var c := Collect(r.gate.stored, frame);
    && IsAccepted(c)
    && GrewBy(r.log, s.log, Handed(c, frame, true), s.verdict == Failed)
    && s.gate.stored == c.stored
    && (s.verdict.Sent? ==> s.verdict.idr == c.hasIdr)
  }

  lemma OutputFate<D>(d: Depacketizer<D>, before: seq<Packet>, p: Packet, r: Stepped<D>, s: Stepped<D>)
    requires StepMeaning(d, before, p, r, s) && (s.log != r.log || s.verdict.Sent?)
    ensures p.marker && IsIntact(d, Unit(before + [p]))
    ensures HandsOver(r, s, Reassembled(d, Unit(before + [p])))
  {
  }

  lemma OutputMeansIntact<D>(
    d: Depacketizer<D>, fails: nat -> bool, before: seq<Packet>, p: Packet, r: Stepped<D>, s: Stepped<D>)
    requires NoneEmpty(before) && p.payload != []
    requires r == Run(d, fails, before) && s == Run(d, fails, before + [p])
    requires s.log != r.log || s.verdict.Sent?
    ensures p.marker && IsIntact(d, Unit(before + [p]))
    ensures HandsOver(r, s, Reassembled(d, Unit(before + [p])))
  {
    UnitsDecideOutput(d, fails, before, p);
    OutputFate(d, before, p, r, s);
  }

  lemma OutputIsOneFrame<D>(d: Depacketizer<D>, fails: nat -> bool, ps: seq<Packet>, r: Stepped<D>, s: Stepped<D>)
    requires ps != [] && r == Run(d, fails, ps[..|ps| - 1]) && s == Run(d, fails, ps)
    requires s.log != r.log || s.verdict.Sent?
    ensures var frame := Reassembled(d, Unit(Kept(ps)));
            Kept(ps) != [] && IsFrameOf(d, Kept(ps), frame) && HandsOver(r, s, frame)
  {
    var before := Kept(ps[..|ps| - 1]);
    var p := ps[|ps| - 1];
    KeptHasNoneEmpty(ps[..|ps| - 1]);
    EmptyPayloadsAreInvisible(d, fails, ps[..|ps| - 1]);
    EmptyPayloadsAreInvisible(d, fails, ps);
    OutputMeansIntact(d, fails, before, p, Run(d, fails, before), s);
    IntactUnitIsFrame(d, before + [p]);
  }

  // The last thing a sending step wrote is the reassembly of one access unit.
  lemma WrittenFramesAreAccessUnits<D>(d: Depacketizer<D>, fails: nat -> bool, ps: seq<Packet>)
    requires ps != []
    ensures var s := Run(d, fails, ps);
            s.verdict.Sent? ==> s.log != [] && IsFrameOf(d, Kept(ps), s.log[|s.log| - 1])
  {
    var r, s := Run(d, fails, ps[..|ps| - 1]), Run(d, fails, ps);
    if s.verdict.Sent? {
      OutputIsOneFrame(d, fails, ps, r, s);
      var frame := Reassembled(d, Unit(Kept(ps)));
      HandedEndsWithFrame(Collect(r.gate.stored, frame), frame, true);
    }
  }

  // Nothing else is ever handed over: a step that writes ends an access unit whose references are
  // stored, and writes what that unit calls for, up to the first failing write.
  lemma OnlyAccessUnitsAreHandedOver<D>(d: Depacketizer<D>, fails: nat -> bool, ps: seq<Packet>)
    requires ps != []
    ensures var r, s := Run(d, fails, ps[..|ps| - 1]), Run(d, fails, ps);
            s.log != r.log ==> exists frame :: IsFrameOf(d, Kept(ps), frame) && HandsOver(r, s, frame)
  {
    var r, s := Run(d, fails, ps[..|ps| - 1]), Run(d, fails, ps);
    if s.log != r.log {
      OutputIsOneFrame(d, fails, ps, r, s);
    }
  }

  //
  // When predictive units may pass.
  //

  // The verdict on every packet.
  ghost function Verdicts<D>(d: Depacketizer<D>, fails: nat -> bool, ps: seq<Packet>): (vs: seq<Verdict>)
    ensures |vs| == |ps|
  {
    if ps == [] then [] else Verdicts(d, fails, ps[..|ps| - 1]) + [Run(d, fails, ps).verdict]
  }

  ghost predicate NoFailure<D>(d: Depacketizer<D>, fails: nat -> bool, ps: seq<Packet>) {
    Failed !in Verdicts(d, fails, ps)
  }

  ghost predicate NoBreakAfter(ps: seq<Packet>, i: nat) {
    forall k: nat | i < k < |ps| :: !IsBreak(ps[..k], ps[k])
  }

  // An IDR unit was written with packet e - 1; since its first packet there was no gap and no
  // early timestamp change, and since it was written no unit was rejected.
  ghost predicate ReadySince<D>(d: Depacketizer<D>, fails: nat -> bool, ps: seq<Packet>, e: nat) {
    && 1 <= e <= |ps|
    && Verdicts(d, fails, ps)[e - 1] == Sent(true)
    && NoBreakAfter(ps, UnitStart(ps[..e]))
    && Rejected !in Verdicts(d, fails, ps)[e..]
  }

  lemma NoBreakStep(ps: seq<Packet>, i: nat)
    requires ps != [] && i < |ps| - 1
    ensures NoBreakAfter(ps, i) <==> NoBreakAfter(ps[..|ps| - 1], i) && !IsBreak(ps[..|ps| - 1], ps[|ps| - 1])
  {
    var before := ps[..|ps| - 1];
    forall k: nat | k < |before|
      ensures before[..k] == ps[..k] && before[k] == ps[k]
    {
    }
    if NoBreakAfter(ps, i) {
      forall k: nat | i < k < |before|
        ensures !IsBreak(before[..k], before[k])
      {
        assert !IsBreak(ps[..k], ps[k]);
      }
    }
    if NoBreakAfter(before, i) && !IsBreak(before, ps[|before|]) {
      forall k: nat | i < k < |ps|
        ensures !IsBreak(ps[..k], ps[k])
      {
        assert k < |before| ==> !IsBreak(before[..k], before[k]);
      }
    }
  }

  lemma ReadySinceEarlier<D>(d: Depacketizer<D>, fails: nat -> bool, ps: seq<Packet>, e: nat)
    requires ps != [] && e < |ps|
    ensures var before := ps[..|ps| - 1];
            ReadySince(d, fails, ps, e) <==>
            && ReadySince(d, fails, before, e)
            && !IsBreak(before, ps[|ps| - 1])
            && Run(d, fails, ps).verdict != Rejected
  {
    if 1 <= e {
      var before := ps[..|ps| - 1];
      assert before[..e] == ps[..e];
      NoBreakStep(ps, UnitStart(ps[..e]));
      assert Verdicts(d, fails, ps)[e..] == Verdicts(d, fails, before)[e..] + [Run(d, fails, ps).verdict];
    }
  }

  lemma IntactHasNoBreak<D>(d: Depacketizer<D>, ps: seq<Packet>)
    requires ps != [] && IsIntact(d, Unit(ps))
    ensures NoBreakAfter(ps, UnitStart(ps))
  {
    var us := Unit(ps);
    var i := UnitStart(ps);
    UnitMeaning(ps);
    forall k: nat | i < k < |ps|
      ensures !IsBreak(ps[..k], ps[k])
    {
      PacketInUnit(d, us, k - i);
      assert us[k - i] == ps[k] && us[k - i - 1] == ps[k - 1];
    }
  }

  lemma ReadySinceNow<D>(d: Depacketizer<D>, fails: nat -> bool, before: seq<Packet>, p: Packet)
    requires NoneEmpty(before) && p.payload != []
    ensures ReadySince(d, fails, before + [p], |before| + 1) <==> Run(d, fails, before + [p]).verdict == Sent(true)
  {
    var ps := before + [p];
    assert ps[..|ps|] == ps;
    if Run(d, fails, ps).verdict == Sent(true) {
      OutputMeansIntact(d, fails, before, p, Run(d, fails, before), Run(d, fails, ps));
      IntactHasNoBreak(d, ps);
    }
  }

  lemma ReadyStep<D>(d: Depacketizer<D>, fails: nat -> bool, before: seq<Packet>, p: Packet)
    requires NoneEmpty(before) && p.payload != [] && Run(d, fails, before + [p]).verdict != Failed
    ensures var r := Run(d, fails, before);
            var s := Run(d, fails, before + [p]);
            s.gate.ready == (s.verdict == Sent(true) || (r.gate.ready && !IsBreak(before, p) && s.verdict != Rejected))
  {
    UnitsDecideOutput(d, fails, before, p);
  }

  ghost predicate IsReadySince<D>(d: Depacketizer<D>, fails: nat -> bool, ps: seq<Packet>) {
    exists e: nat :: ReadySince(d, fails, ps, e)
  }

  lemma ReadySinceStep<D>(d: Depacketizer<D>, fails: nat -> bool, before: seq<Packet>, p: Packet)
    requires NoneEmpty(before) && p.payload != []
    ensures var verdict := Run(d, fails, before + [p]).verdict;
            IsReadySince(d, fails, before + [p])
            == (verdict == Sent(true) || (IsReadySince(d, fails, before) && !IsBreak(before, p) && verdict != Rejected))
  {
    var ps := before + [p];
    assert ps[..|ps| - 1] == before;
    ReadySinceNow(d, fails, before, p);
    if IsReadySince(d, fails, before) {
      var e: nat :| ReadySince(d, fails, before, e);
      ReadySinceEarlier(d, fails, ps, e);
    }
    if IsReadySince(d, fails, ps) {
      var e: nat :| ReadySince(d, fails, ps, e);
      if e < |ps| {
        ReadySinceEarlier(d, fails, ps, e);
      }
    }
  }

  lemma {:induction false} ReadyExactly<D>(d: Depacketizer<D>, fails: nat -> bool, ps: seq<Packet>)
    requires NoneEmpty(ps) && NoFailure(d, fails, ps)
    ensures Run(d, fails, ps).gate.ready == IsReadySince(d, fails, ps)
    decreases |ps|
  {
    if ps != [] {
      var before := ps[..|ps| - 1];
      var p := ps[|ps| - 1];
      assert before + [p] == ps;
      ReadyExactly(d, fails, before);
      ReadyStep(d, fails, before, p);
      ReadySinceStep(d, fails, before, p);
    }
  }

  lemma {:induction false} NoFailureKept<D>(d: Depacketizer<D>, fails: nat -> bool, ps: seq<Packet>)
    requires NoFailure(d, fails, ps)
    ensures NoFailure(d, fails, Kept(ps))
    decreases |ps|
  {
    if ps != [] {
      NoFailureKept(d, fails, ps[..|ps| - 1]);
      EmptyPayloadsAreInvisible(d, fails, ps);
      if ps[|ps| - 1].payload != [] {
        assert Kept(ps)[..|Kept(ps)| - 1] == Kept(ps[..|ps| - 1]);
      }
    }
  }

  // Up to the first output error, an intact and accepted unit without an IDR slice is written
  // exactly when an IDR unit was written and nothing since its first packet broke the chain.
  lemma PredictiveUnitsNeedAnIdr<D>(d: Depacketizer<D>, fails: nat -> bool, ps: seq<Packet>)
    requires ps != [] && NoFailure(d, fails, ps)
    ensures Run(d, fails, ps).verdict == Sent(false) ==> IsReadySince(d, fails, Kept(ps))
    ensures Run(d, fails, ps).verdict == Withheld ==> !IsReadySince(d, fails, Kept(ps))
    ensures Run(d, fails, ps).gate.ready <==> IsReadySince(d, fails, Kept(ps))
  {
    KeptHasNoneEmpty(ps);
    NoFailureKept(d, fails, ps);
    ReadyExactly(d, fails, Kept(ps));
    EmptyPayloadsAreInvisible(d, fails, ps);
    if ps[|ps| - 1].payload != [] {
      KeptHasNoneEmpty(ps[..|ps| - 1]);
      ReadyAtVerdict(d, fails, Kept(ps[..|ps| - 1]), ps[|ps| - 1]);
    }
  }

  lemma ReadyAtVerdict<D>(d: Depacketizer<D>, fails: nat -> bool, before: seq<Packet>, p: Packet)
    requires NoneEmpty(before) && p.payload != []
    ensures var s := Run(d, fails, before + [p]);
            && (s.verdict.Sent? ==> s.gate.ready)
            && (s.verdict == Withheld ==> !s.gate.ready)
  {
    UnitsDecideOutput(d, fails, before, p);
  }

  //
  // The parameter maps.
  //

  // Every stored set is a NAL unit that parses to the key it is stored under.
  ghost predicate StoredParses(stored: Stored) {
    && (forall id :: id in stored.sps ==> id <= 31 && SpsIdOf(stored.sps[id]) == Some(id))
    && (forall id :: id in stored.pps ==>
          id <= 255 && PpsIdsOf(stored.pps[id].data) == Some((id, stored.pps[id].spsId)))
  }

  // The PPS IDs of the slices, in order.
  ghost function SliceReferences(nalus: seq<seq<Byte>>): seq<nat>
    requires forall n :: n in nalus ==> Parses(n)
  {
    if nalus == [] then [] else SliceIds(nalus[0]) + SliceReferences(nalus[1..])
  }

  lemma StoreParses(stored: Stored, nalu: seq<Byte>)
    requires StoredParses(stored) && Parses(nalu)
    ensures StoredParses(Store(stored, nalu))
  {
  }

  lemma {:induction false} CollectKeepsParses(stored: Stored, references: seq<nat>, hasIdr: bool, nalus: seq<seq<Byte>>)
    requires StoredParses(stored)
    ensures StoredParses(CollectFrom(stored, references, hasIdr, nalus).stored)
    decreases |nalus|
  {
    if nalus != [] && Parses(nalus[0]) {
      StoreParses(stored, nalus[0]);
      CollectKeepsParses(
        Store(stored, nalus[0]), references + SliceIds(nalus[0]), hasIdr || KindOf(nalus[0]) == IDR, nalus[1..]);
    }
  }

  // Some unit is a slice of an IDR picture (table 7-1 of H.264).
  ghost predicate HasIdr(nalus: seq<seq<Byte>>) {
    exists n :: n in nalus && n != [] && n[0] % 32 == 5
  }

  // Collecting succeeds when every unit parses, and then has seen every slice.
  lemma {:induction false} CollectMeaning(stored: Stored, references: seq<nat>, hasIdr: bool, nalus: seq<seq<Byte>>)
    ensures var c := CollectFrom(stored, references, hasIdr, nalus);
            && (c.valid <==> forall n :: n in nalus ==> Parses(n))
            && (c.valid ==> c.references == references + SliceReferences(nalus))
            && (c.valid ==> (c.hasIdr <==> hasIdr || HasIdr(nalus)))
    decreases |nalus|
  {
    if nalus != [] {
      var nalu := nalus[0];
      var rest := nalus[1..];
      assert nalu in nalus && forall n :: n in nalus <==> n == nalu || n in rest;
      if Parses(nalu) {
        CollectMeaning(Store(stored, nalu), references + SliceIds(nalu), hasIdr || KindOf(nalu) == IDR, rest);
        if forall n :: n in nalus ==> Parses(n) {
          ConcatAssociates(references, SliceIds(nalu), SliceReferences(rest));
        }
      }
    }
  }

  lemma {:induction false} StoredAlwaysParses<D>(d: Depacketizer<D>, fails: nat -> bool, ps: seq<Packet>)
    ensures StoredParses(Run(d, fails, ps).gate.stored)
    decreases |ps|
  {
    if ps != [] {
      StoredAlwaysParses(d, fails, ps[..|ps| - 1]);
      var r := Run(d, fails, ps[..|ps| - 1]);
      StepKeepsParses(d, fails, r.gate, r.log, ps[|ps| - 1]);
    }
  }

  lemma StepKeepsParses<D>(d: Depacketizer<D>, fails: nat -> bool, g: Gate<D>, log: seq<seq<Byte>>, p: Packet)
    requires StoredParses(g.stored)
    ensures StoredParses(Step(d, fails, g, log, p).gate.stored)
  {
    var a := Admit(d, g, p);
    assert a.stored == g.stored;
    CollectKeepsParses(a.stored, [], false, Split(a.frame));
    if p.payload != [] && p.marker && !a.damaged {
      WriteFrameKeeps(fails, log, a);
    }
  }

  //
  // Which sets are stored.
  //

  predicate IsSpsFor(nalu: seq<Byte>, id: nat) {
    KindOf(nalu) == 7 && SpsIdOf(nalu) == Some(id)
  }

  predicate IsPpsFor(nalu: seq<Byte>, id: nat) {
    KindOf(nalu) == 8 && PpsIdsOf(nalu).Some? && PpsIdsOf(nalu).value.0 == id
  }

  // The last unit that is an SPS, or a PPS, with this ID.
  ghost predicate IsLatestSps(units: seq<seq<Byte>>, id: nat, data: seq<Byte>) {
    && IsSpsFor(data, id)
    && exists k: nat :: k < |units| && units[k] == data && forall j | k < j < |units| :: !IsSpsFor(units[j], id)
  }

  ghost predicate IsLatestPps(units: seq<seq<Byte>>, id: nat, data: seq<Byte>) {
    && IsPpsFor(data, id)
    && exists k: nat :: k < |units| && units[k] == data && forall j | k < j < |units| :: !IsPpsFor(units[j], id)
  }

  ghost predicate HoldsLatestSps(sps: map<nat, seq<Byte>>, units: seq<seq<Byte>>, id: nat) {
    if id in sps then IsLatestSps(units, id, sps[id]) else forall n | n in units :: !IsSpsFor(n, id)
  }

  ghost predicate HoldsLatestPps(pps: map<nat, PpsInfo>, units: seq<seq<Byte>>, id: nat) {
    if id in pps then IsLatestPps(units, id, pps[id].data) && PpsIdsOf(pps[id].data) == Some((id, pps[id].spsId))
    else forall n | n in units :: !IsPpsFor(n, id)
  }

  // For every ID the last set received under it is stored, and nothing where none was received.
  ghost predicate HoldsLatest(stored: Stored, units: seq<seq<Byte>>) {
    forall id: nat :: HoldsLatestSps(stored.sps, units, id) && HoldsLatestPps(stored.pps, units, id)
  }

  // The units up to the first one whose IDs cannot be read.
  function Readable(nalus: seq<seq<Byte>>): seq<seq<Byte>> {
    if nalus == [] || !Parses(nalus[0]) then [] else [nalus[0]] + Readable(nalus[1..])
  }

  // What a stream brings: the readable units of its ended intact access units, in order.
  ghost function Received<D>(d: Depacketizer<D>, qs: seq<Packet>): seq<seq<Byte>> {
    if qs == [] then [] else
    Received(d, qs[..|qs| - 1]) +
    if qs[|qs| - 1].marker && IsIntact(d, Unit(qs)) then Readable(Split(Reassembled(d, Unit(qs)))) else []
  }

  lemma LatestSpsStays(units: seq<seq<Byte>>, n: seq<Byte>, id: nat, data: seq<Byte>)
    requires IsLatestSps(units, id, data) && !IsSpsFor(n, id)
    ensures IsLatestSps(units + [n], id, data)
  {
    var k: nat :| k < |units| && units[k] == data && forall j | k < j < |units| :: !IsSpsFor(units[j], id);
    assert (units + [n])[k] == data;
  }

  lemma LatestPpsStays(units: seq<seq<Byte>>, n: seq<Byte>, id: nat, data: seq<Byte>)
    requires IsLatestPps(units, id, data) && !IsPpsFor(n, id)
    ensures IsLatestPps(units + [n], id, data)
  {
    var k: nat :| k < |units| && units[k] == data && forall j | k < j < |units| :: !IsPpsFor(units[j], id);
    assert (units + [n])[k] == data;
  }

  lemma NewestIsLatest(units: seq<seq<Byte>>, n: seq<Byte>, id: nat)
    ensures IsSpsFor(n, id) ==> IsLatestSps(units + [n], id, n)
    ensures IsPpsFor(n, id) ==> IsLatestPps(units + [n], id, n)
  {
    assert (units + [n])[|units|] == n;
  }

  lemma StoreSpsHoldsLatest(stored: Stored, units: seq<seq<Byte>>, n: seq<Byte>, id: nat)
    requires Parses(n) && HoldsLatestSps(stored.sps, units, id)
    ensures HoldsLatestSps(Store(stored, n).sps, units + [n], id)
  {
    NewestIsLatest(units, n, id);
    if id in stored.sps && !IsSpsFor(n, id) {
      LatestSpsStays(units, n, id, stored.sps[id]);
    }
  }

  lemma StorePpsHoldsLatest(stored: Stored, units: seq<seq<Byte>>, n: seq<Byte>, id: nat)
    requires Parses(n) && HoldsLatestPps(stored.pps, units, id)
    ensures HoldsLatestPps(Store(stored, n).pps, units + [n], id)
  {
    NewestIsLatest(units, n, id);
    if id in stored.pps && !IsPpsFor(n, id) {
      LatestPpsStays(units, n, id, stored.pps[id].data);
    }
  }

  lemma {:induction false} CollectHoldsLatest(
    stored: Stored, references: seq<nat>, hasIdr: bool, nalus: seq<seq<Byte>>, units: seq<seq<Byte>>)
    requires HoldsLatest(stored, units)
    ensures HoldsLatest(CollectFrom(stored, references, hasIdr, nalus).stored, units + Readable(nalus))
    decreases |nalus|
  {
    if nalus != [] && Parses(nalus[0]) {
      var n := nalus[0];
      var next := Store(stored, n);
      forall id: nat
        ensures HoldsLatestSps(next.sps, units + [n], id) && HoldsLatestPps(next.pps, units + [n], id)
      {
        assert HoldsLatestSps(stored.sps, units, id) && HoldsLatestPps(stored.pps, units, id);
        StoreSpsHoldsLatest(stored, units, n, id);
        StorePpsHoldsLatest(stored, units, n, id);
      }
      CollectHoldsLatest(next, references + SliceIds(n), hasIdr || KindOf(n) == IDR, nalus[1..], units + [n]);
      ConcatAssociates(units, [n], Readable(nalus[1..]));
    } else {
      assert units + [] == units;
    }
  }

  lemma {:induction false} RunHoldsLatest<D>(d: Depacketizer<D>, fails: nat -> bool, qs: seq<Packet>)
    requires NoneEmpty(qs)
    ensures HoldsLatest(Run(d, fails, qs).gate.stored, Received(d, qs))
    decreases |qs|
  {
    if qs != [] {
      var before, p := qs[..|qs| - 1], qs[|qs| - 1];
      assert before + [p] == qs;
      RunHoldsLatest(d, fails, before);
      UnitsDecideOutput(d, fails, before, p);
      StepHoldsLatest(d, before, p, Run(d, fails, before), Run(d, fails, qs));
    }
  }

  lemma StepHoldsLatest<D>(d: Depacketizer<D>, before: seq<Packet>, p: Packet, r: Stepped<D>, s: Stepped<D>)
    requires StepMeaning(d, before, p, r, s) && HoldsLatest(r.gate.stored, Received(d, before))
    ensures HoldsLatest(s.gate.stored, Received(d, before + [p]))
  {
    var qs := before + [p];
    assert qs[..|qs| - 1] == before;
    if p.marker && IsIntact(d, Unit(qs)) {
      CollectHoldsLatest(r.gate.stored, [], false, Split(Reassembled(d, Unit(qs))), Received(d, before));
    } else {
      assert Received(d, before) + [] == Received(d, before);
    }
  }

  // After every packet sequence the stored sets are exactly the latest ones received.
  lemma StoredAreTheLatest<D>(d: Depacketizer<D>, fails: nat -> bool, ps: seq<Packet>)
    ensures HoldsLatest(Run(d, fails, ps).gate.stored, Received(d, Kept(ps)))
  {
    KeptHasNoneEmpty(ps);
    EmptyPayloadsAreInvisible(d, fails, ps);
    RunHoldsLatest(d, fails, Kept(ps));
  }

  // The parameter sets of a slice reference: the PPS received last under that ID, and the SPS
  // received last under the ID the PPS names.
  ghost predicate Fits(s: ParameterSet, reference: nat, received: seq<seq<Byte>>) {
    && IsLatestPps(received, reference, s.pps)
    && IsLatestSps(received, PpsIdsOf(s.pps).value.1, s.sps)
  }

  // The writes of an IDR unit: its frame directly behind the current sets of each slice reference.
  ghost predicate IsIdrOutput(writes: seq<seq<Byte>>, frame: seq<Byte>, received: seq<seq<Byte>>) {
    var nalus := Split(frame);
    && HasIdr(nalus)
    && (forall n :: n in nalus ==> Parses(n))
    && exists sets: seq<ParameterSet> ::
         && writes == SetWrites(sets) + [frame]
         && |sets| == |SliceReferences(nalus)|
         && forall i | 0 <= i < |sets| :: Fits(sets[i], SliceReferences(nalus)[i], received)
  }

  lemma AcceptedIdrOutput(stored: Stored, frame: seq<Byte>, received: seq<seq<Byte>>)
    requires HoldsLatest(Collect(stored, frame).stored, received)
    requires IsAccepted(Collect(stored, frame)) && Collect(stored, frame).hasIdr
    ensures IsIdrOutput(Handed(Collect(stored, frame), frame, true), frame, received)
  {
    var c := Collect(stored, frame);
    CollectMeaning(stored, [], false, Split(frame));
    var sets := SetsFor(c.stored, c.references);
    forall i | 0 <= i < |sets|
      ensures Fits(sets[i], c.references[i], received)
    {
      KnownSetFits(c.stored, c.references[i], received);
    }
  }

  lemma KnownSetFits(stored: Stored, reference: nat, received: seq<seq<Byte>>)
    requires HoldsLatest(stored, received) && IsKnown(stored, reference)
    ensures Fits(SetFor(stored, reference), reference, received)
  {
    assert HoldsLatestPps(stored.pps, received, reference);
    assert HoldsLatestSps(stored.sps, received, stored.pps[reference].spsId);
  }

  // Every written IDR unit is directly preceded, slice by slice, by its current parameter sets.
  lemma IdrUnitsCarryTheirSets<D>(d: Depacketizer<D>, fails: nat -> bool, ps: seq<Packet>)
    requires ps != []
    ensures var r, s := Run(d, fails, ps[..|ps| - 1]), Run(d, fails, ps);
            s.verdict == Sent(true) ==>
              exists writes, frame ::
                && s.log == r.log + writes
                && IsFrameOf(d, Kept(ps), frame)
                && IsIdrOutput(writes, frame, Received(d, Kept(ps)))
  {
    var r, s := Run(d, fails, ps[..|ps| - 1]), Run(d, fails, ps);
    if s.verdict == Sent(true) {
      OutputIsOneFrame(d, fails, ps, r, s);
      StoredAreTheLatest(d, fails, ps);
      AcceptedIdrOutput(r.gate.stored, Reassembled(d, Unit(Kept(ps))), Received(d, Kept(ps)));
    }
  }
}
