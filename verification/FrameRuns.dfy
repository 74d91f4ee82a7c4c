/**
 The frame writer over whole packet sequences: the stream cut into units without looking at the
 writer, and what each unit decides about state, verdict and writes.
 */
module FrameRuns {
  import opened Wire
  import opened FrameGate
  import Payload

  //
  // The packet stream cut into units, without looking at the writer.
  //

  // The unit the last packet belongs to: it starts after a marker or at a new timestamp.
  ghost function Unit(ps: seq<Packet>): (us: seq<Packet>)
    requires ps != []
    ensures 1 <= |us| <= |ps|
    decreases |ps|, 0
  {
    var open := Open(ps[..|ps| - 1]);
    var p := ps[|ps| - 1];
    if open != [] && open[0].timestamp == p.timestamp then open + [p] else [p]
  }

  // The unit that still waits for its marker.
  ghost function Open(ps: seq<Packet>): (us: seq<Packet>)
    ensures |us| <= |ps|
    decreases |ps|, 1
  {
    if ps == [] || ps[|ps| - 1].marker then [] else Unit(ps)
  }

  ghost function UnitStart(ps: seq<Packet>): nat
    requires ps != []
  {
    |ps| - |Unit(ps)|
  }

  ghost predicate UnitStartsAt(ps: seq<Packet>, i: nat)
    requires i < |ps|
  {
    i == 0 || ps[i - 1].marker || ps[i - 1].timestamp != ps[i].timestamp
  }

  // One timestamp from packet i on, no marker before the last packet, and no longer run.
  ghost predicate IsRunFrom(ps: seq<Packet>, i: nat) {
    && i < |ps| && UnitStartsAt(ps, i)
    && (forall k :: i <= k < |ps| ==> ps[k].timestamp == ps[i].timestamp)
    && (forall k :: i <= k < |ps| - 1 ==> !ps[k].marker)
  }

  lemma UnitStep(before: seq<Packet>, p: Packet)
    ensures var open := Open(before);
            Unit(before + [p]) == if open != [] && open[0].timestamp == p.timestamp then open + [p] else [p]
  {
  }

  lemma ExtendRun(before: seq<Packet>, p: Packet, i: nat)
    requires IsRunFrom(before, i) && !before[|before| - 1].marker && p.timestamp == before[i].timestamp
    ensures IsRunFrom(before + [p], i)
  {
  }

  // Units are such runs.
  lemma {:induction false} UnitMeaning(ps: seq<Packet>)
    requires ps != []
    ensures ps[UnitStart(ps)..] == Unit(ps) && IsRunFrom(ps, UnitStart(ps))
    decreases |ps|
  {
    var before := ps[..|ps| - 1];
    var p := ps[|ps| - 1];
    assert ps == before + [p];
    UnitStep(before, p);
    if Open(before) != [] {
      UnitMeaning(before);
      if Open(before)[0].timestamp == p.timestamp {
        ExtendRun(before, p, UnitStart(before));
      }
    }
  }

  // The depacketizer after a list of packets, from its start state.
  ghost function DepAfter<D>(d: Depacketizer<D>, us: seq<Packet>): D {
    if us == [] then d.start
    else d.unmarshal(DepAfter(d, us[..|us| - 1]), us[|us| - 1].payload).0
  }

  // What it returned for the last of them.
  ghost function LastResult<D>(d: Depacketizer<D>, us: seq<Packet>): Option<seq<Byte>>
    requires us != []
  {
    d.unmarshal(DepAfter(d, us[..|us| - 1]), us[|us| - 1].payload).1
  }

  ghost function BytesOf(r: Option<seq<Byte>>): seq<Byte> {
    if r.Some? then r.value else []
  }

  // The results in order, concatenated.
  ghost function Reassembled<D>(d: Depacketizer<D>, us: seq<Packet>): seq<Byte> {
    if us == [] then [] else Reassembled(d, us[..|us| - 1]) + BytesOf(LastResult(d, us))
  }

  // The last packet is a partition head if it is the first, and carries the next sequence number
  // otherwise.
  ghost predicate LastFollows<D>(d: Depacketizer<D>, us: seq<Packet>)
    requires us != []
  {
    var n := |us| - 1;
    if n == 0 then d.head(us[0].payload) else us[n].sequence == NextSequence(us[n - 1].sequence)
  }

  ghost predicate LastFits<D>(d: Depacketizer<D>, us: seq<Packet>)
    requires us != []
  {
    LastFollows(d, us) && Payload.IsValid(us[|us| - 1].payload) && LastResult(d, us).Some?
  }

  // An intact unit, packet by packet; IntactMeaning says it for all packets at once.
  ghost predicate IsIntact<D>(d: Depacketizer<D>, us: seq<Packet>) {
    us == [] || (IsIntact(d, us[..|us| - 1]) && LastFits(d, us) && |Reassembled(d, us)| <= MAX_FRAME_BYTES)
  }

  lemma {:induction false} IntactMeaning<D>(d: Depacketizer<D>, us: seq<Packet>)
    ensures IsIntact(d, us) <==>
            (forall k: nat | 1 <= k <= |us| :: LastFits(d, us[..k])) && |Reassembled(d, us)| <= 8 * 1024 * 1024
  {
    if us != [] {
      var before := us[..|us| - 1];
      IntactMeaning(d, before);
      assert us[..|us|] == us;
      forall k: nat | 1 <= k < |us|
        ensures us[..k] == before[..k]
      {
      }
      if forall k: nat | 1 <= k <= |us| :: LastFits(d, us[..k]) {
        forall k: nat | 1 <= k <= |before|
          ensures LastFits(d, before[..k])
        {
          assert LastFits(d, us[..k]);
        }
      }
    }
  }

  //
  // The writer follows the units.
  //

  ghost predicate Tracks<D>(d: Depacketizer<D>, open: seq<Packet>, g: Gate<D>) {
    && g.haveTime == (open != [])
    && (open == [] ==> g.dep == d.start && g.frame == [] && !g.damaged)
    && (open != [] ==>
          && g.timestamp == open[0].timestamp
          && g.damaged == !IsIntact(d, open)
          && (!g.damaged ==> g.dep == DepAfter(d, open) && g.frame == Reassembled(d, open)))
  }

  ghost predicate RemembersSequence<D>(ps: seq<Packet>, g: Gate<D>) {
    && g.haveSequence == (ps != [])
    && (ps != [] ==> g.sequence == ps[|ps| - 1].sequence)
  }

  ghost predicate NoneEmpty(ps: seq<Packet>) {
    forall i | 0 <= i < |ps| :: ps[i].payload != []
  }

  // The writer just before it depacketizes p, behind the unit us.
  ghost predicate Prepared<D>(d: Depacketizer<D>, us: seq<Packet>, p: Packet, g: Gate<D>) {
    && g.haveTime && g.timestamp == p.timestamp
    && g.haveSequence && g.sequence == p.sequence
    && g.damaged == !(IsIntact(d, us) && LastFollows(d, us + [p]))
    && (!g.damaged ==> g.dep == DepAfter(d, us) && g.frame == Reassembled(d, us))
  }

  lemma PrepareFirst<D>(d: Depacketizer<D>, open: seq<Packet>, p: Packet, g: Gate<D>)
    requires Tracks(d, open, g) && (open == [] || open[0].timestamp != p.timestamp)
    ensures Prepared(d, [], p, OnFirst(d, OnSequence(OnTimestamp(d, g, p), p), p))
  {
  }

  lemma PrepareNext<D>(d: Depacketizer<D>, open: seq<Packet>, p: Packet, g: Gate<D>)
    requires Tracks(d, open, g) && open != [] && open[0].timestamp == p.timestamp
    requires g.haveSequence && g.sequence == open[|open| - 1].sequence
    ensures Prepared(d, open, p, OnFirst(d, OnSequence(OnTimestamp(d, g, p), p), p))
  {
  }

  lemma AppendTracks<D>(d: Depacketizer<D>, us: seq<Packet>, p: Packet, g: Gate<D>)
    requires Prepared(d, us, p, g) && (us == [] || us[0].timestamp == p.timestamp)
    ensures Tracks(d, us + [p], if g.damaged then g else AppendPayload(d, g, p.payload))
  {
  }

  lemma AdmitTracks<D>(d: Depacketizer<D>, before: seq<Packet>, p: Packet, g: Gate<D>)
    requires Tracks(d, Open(before), g) && RemembersSequence(before, g)
    ensures Tracks(d, Unit(before + [p]), Admit(d, g, p))
    ensures RemembersSequence(before + [p], Admit(d, g, p))
  {
    var open := Open(before);
    var g' := OnFirst(d, OnSequence(OnTimestamp(d, g, p), p), p);
    UnitStep(before, p);
    if open != [] && open[0].timestamp == p.timestamp {
      OpenEndsAtLast(before);
      PrepareNext(d, open, p, g);
      AppendTracks(d, open, p, g');
    } else {
      PrepareFirst(d, open, p, g);
      AppendTracks(d, [], p, g');
      assert [] + [p] == [p];
    }
    AppendKeepsSequence(d, g', p.payload);
  }

  lemma AppendKeepsSequence<D>(d: Depacketizer<D>, g: Gate<D>, payload: seq<Byte>)
    ensures var g' := AppendPayload(d, g, payload);
            g'.sequence == g.sequence && g'.haveSequence == g.haveSequence
  {
  }

  lemma OpenEndsAtLast(before: seq<Packet>)
    requires Open(before) != []
    ensures Open(before)[|Open(before)| - 1] == before[|before| - 1]
  {
  }

  lemma StepTracks<D>(
    d: Depacketizer<D>, fails: nat -> bool, before: seq<Packet>, p: Packet, g: Gate<D>, log: seq<seq<Byte>>)
    requires p.payload != [] && Tracks(d, Open(before), g) && RemembersSequence(before, g)
    ensures var s := Step(d, fails, g, log, p);
            Tracks(d, Open(before + [p]), s.gate) && RemembersSequence(before + [p], s.gate)
  {
    AdmitTracks(d, before, p, g);
    var a := Admit(d, g, p);
    if p.marker && !a.damaged {
      WriteFrameKeeps(fails, log, a);
    }
  }

  lemma WriteFrameKeeps<D>(fails: nat -> bool, log: seq<seq<Byte>>, g: Gate<D>)
    ensures var g' := WriteFrame(fails, log, g).gate;
            g' == g.(stored := Collect(g.stored, g.frame).stored, ready := g'.ready)
  {
  }

  lemma {:induction false} RunTracks<D>(d: Depacketizer<D>, fails: nat -> bool, ps: seq<Packet>)
    requires NoneEmpty(ps)
    ensures Tracks(d, Open(ps), Run(d, fails, ps).gate)
    ensures RemembersSequence(ps, Run(d, fails, ps).gate)
    decreases |ps|
  {
    if ps != [] {
      var before := ps[..|ps| - 1];
      assert ps == before + [ps[|ps| - 1]];
      RunTracks(d, fails, before);
      var r := Run(d, fails, before);
      StepTracks(d, fails, before, ps[|ps| - 1], r.gate, r.log);
    }
  }

  //
  // Where written frames come from.
  //

  predicate IsAccepted(c: Collected) {
    c.valid && AllKnown(c.stored, c.references)
  }

  // Everything an accepted unit hands to the output: its parameter sets if it has an IDR slice,
  // then the frame; nothing if it has none and the writer is not ready.
  ghost function Handed(c: Collected, frame: seq<Byte>, ready: bool): seq<seq<Byte>> {
    if !IsAccepted(c) then []
    else if c.hasIdr then SetWrites(SetsFor(c.stored, c.references)) + [frame]
    else if ready then [frame]
    else []
  }

  lemma HandedEndsWithFrame(c: Collected, frame: seq<Byte>, ready: bool)
    requires IsAccepted(c) && (c.hasIdr || ready)
    ensures var h := Handed(c, frame, ready); h != [] && h[|h| - 1] == frame
  {
  }

  // The fate of a unit; a write may fail only where something is written.
  function Fate(marker: bool, intact: bool, accepted: bool, hasIdr: bool, ready: bool, failed: bool): Verdict {
    if !marker then Pending
    else if !intact then Damaged
    else if !accepted then Rejected
    else if !hasIdr && !ready then Withheld
    else if failed then Failed
    else Sent(hasIdr)
  }

  // A log that grew by some of these writes, or by all of them when none failed.
  ghost predicate GrewBy(before: seq<seq<Byte>>, after: seq<seq<Byte>>, writes: seq<seq<Byte>>, failed: bool) {
    before <= after <= before + writes && (!failed ==> after == before + writes)
  }

  lemma WriteFrameOutcome<D>(fails: nat -> bool, log: seq<seq<Byte>>, g: Gate<D>)
    ensures var w := WriteFrame(fails, log, g);
            var c := Collect(g.stored, g.frame);
            && w.verdict == Fate(true, true, IsAccepted(c), c.hasIdr, g.ready, w.verdict == Failed)
            && GrewBy(log, w.log, Handed(c, g.frame, g.ready), w.verdict == Failed)
            && (w.verdict != Failed ==> w.gate.ready == (w.verdict == Sent(true) || (g.ready && w.verdict != Rejected)))
  {
    var c := Collect(g.stored, g.frame);
    if IsAccepted(c) && c.hasIdr {
      var sets := SetWrites(SetsFor(c.stored, c.references));
      assert log + sets + [g.frame] == log + (sets + [g.frame]);
    }
  }

  // A gap behind any earlier packet, or a new timestamp before the marker.
  ghost predicate IsBreak(before: seq<Packet>, p: Packet) {
    && before != []
    && var last := before[|before| - 1];
       p.sequence != NextSequence(last.sequence) || (!last.marker && p.timestamp != last.timestamp)
  }

  lemma OpenMeaning(before: seq<Packet>)
    ensures Open(before) != [] <==> before != [] && !before[|before| - 1].marker
    ensures Open(before) != [] ==> Open(before)[0].timestamp == before[|before| - 1].timestamp
  {
  }

  lemma AdmitReady<D>(d: Depacketizer<D>, before: seq<Packet>, p: Packet, g: Gate<D>)
    requires Tracks(d, Open(before), g) && RemembersSequence(before, g)
    ensures Admit(d, g, p).ready == (g.ready && !IsBreak(before, p))
    ensures Admit(d, g, p).stored == g.stored
  {
    OpenMeaning(before);
    var g' := OnFirst(d, OnSequence(OnTimestamp(d, g, p), p), p);
    assert g'.ready == (g.ready && !IsBreak(before, p)) && g'.stored == g.stored;
  }

  // A step from r to s by which a unit ends, or not: its verdict, its writes, the stored sets and
  // the readiness it leaves.
  ghost predicate UnitFate<D>(
    marker: bool, intact: bool, c: Collected, frame: seq<Byte>, ready: bool, r: Stepped<D>, s: Stepped<D>)
  {
    var ended := marker && intact;
    && s.verdict == Fate(marker, intact, IsAccepted(c), c.hasIdr, ready, s.verdict == Failed)
    && GrewBy(r.log, s.log, if ended then Handed(c, frame, ready) else [], s.verdict == Failed)
    && s.gate.stored == (if ended then c.stored else r.gate.stored)
    && (s.verdict != Failed ==> s.gate.ready == (s.verdict == Sent(true) || (ready && s.verdict != Rejected)))
  }

  // One step, in terms of the unit that p belongs to.
  ghost predicate StepMeaning<D>(d: Depacketizer<D>, before: seq<Packet>, p: Packet, r: Stepped<D>, s: Stepped<D>) {
    var us := Unit(before + [p]);
    var frame := Reassembled(d, us);
    UnitFate(p.marker, IsIntact(d, us), Collect(r.gate.stored, frame), frame, r.gate.ready && !IsBreak(before, p), r, s)
  }

  lemma FateWithoutWrite<D>(
    marker: bool, intact: bool, c: Collected, frame: seq<Byte>, ready: bool, r: Stepped<D>, s: Stepped<D>)
    requires !(marker && intact)
    requires s.log == r.log && s.gate.stored == r.gate.stored && s.gate.ready == ready
    requires s.verdict == if marker then Damaged else Pending
    ensures UnitFate(marker, intact, c, frame, ready, r, s)
  {
  }

  lemma FateWithWrite<D>(c: Collected, frame: seq<Byte>, ready: bool, r: Stepped<D>, s: Stepped<D>)
    requires s.gate.stored == c.stored
    requires s.verdict == Fate(true, true, IsAccepted(c), c.hasIdr, ready, s.verdict == Failed)
    requires GrewBy(r.log, s.log, Handed(c, frame, ready), s.verdict == Failed)
    requires s.verdict != Failed ==> s.gate.ready == (s.verdict == Sent(true) || (ready && s.verdict != Rejected))
    ensures UnitFate(true, true, c, frame, ready, r, s)
  {
  }

  lemma FateOfStep<D>(
    d: Depacketizer<D>, fails: nat -> bool, us: seq<Packet>, p: Packet, ready: bool, r: Stepped<D>, a: Gate<D>,
    c: Collected)
    requires p.payload != [] && a == Admit(d, r.gate, p) && a.haveTime
    requires Tracks(d, us, a) && a.ready == ready && a.stored == r.gate.stored
    requires c == Collect(r.gate.stored, Reassembled(d, us))
    ensures UnitFate(p.marker, IsIntact(d, us), c, Reassembled(d, us), ready, r, Step(d, fails, r.gate, r.log, p))
  {
    var frame := Reassembled(d, us);
    var s := Step(d, fails, r.gate, r.log, p);
    if p.marker && !a.damaged {
      WriteFrameKeeps(fails, r.log, a);
      WriteFrameOutcome(fails, r.log, a);
      FateWithWrite(c, frame, ready, r, s);
    } else {
      FateWithoutWrite(p.marker, IsIntact(d, us), c, frame, ready, r, s);
    }
  }

  lemma StepHasMeaning<D>(d: Depacketizer<D>, fails: nat -> bool, before: seq<Packet>, p: Packet, r: Stepped<D>)
    requires p.payload != [] && Tracks(d, Open(before), r.gate) && RemembersSequence(before, r.gate)
    ensures StepMeaning(d, before, p, r, Step(d, fails, r.gate, r.log, p))
  {
    var us := Unit(before + [p]);
    AdmitTracks(d, before, p, r.gate);
    AdmitReady(d, before, p, r.gate);
    FateOfStep(d, fails, us, p, r.gate.ready && !IsBreak(before, p), r, Admit(d, r.gate, p),
      Collect(r.gate.stored, Reassembled(d, us)));
  }

  // Every unit's fate is decided by its packets, the stored sets and readiness, and every frame
  // written is the reassembly of one intact unit.
  lemma UnitsDecideOutput<D>(d: Depacketizer<D>, fails: nat -> bool, before: seq<Packet>, p: Packet)
    requires NoneEmpty(before) && p.payload != []
    ensures StepMeaning(d, before, p, Run(d, fails, before), Run(d, fails, before + [p]))
  {
    RunTracks(d, fails, before);
    StepHasMeaning(d, fails, before, p, Run(d, fails, before));
    RunStep(d, fails, before, p);
  }

  lemma RunStep<D>(d: Depacketizer<D>, fails: nat -> bool, before: seq<Packet>, p: Packet)
    ensures var r := Run(d, fails, before);
            Run(d, fails, before + [p]) == Step(d, fails, r.gate, r.log, p)
  {
  }
}
